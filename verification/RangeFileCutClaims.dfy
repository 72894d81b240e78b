/** A state file of two buffers that is cut behind a digit: which bytes it then claims falsely, when it is
    declared complete falsely, and when no harm is done. */
module RangeFileCutClaims {
  import opened Ranges
  import opened RangeText
  import opened RangeTextProofs
  import opened RangeFile
  import opened RangeFileProofs
  import opened RangeFileSkips
  import opened RangeFileCuts
  import opened RangeFileLines
  import opened RangeFileClaims
  import opened Wrappers

  /** A buffer of `cap` characters ends behind the k-th digit of number f of line i. */
  predicate CutAt(rs: seq<Range>, cap: nat, i: nat, f: Field, k: nat) {
    && i < |rs| && NonNeg(rs[i]) && 0 < k <= |Dec(NumberOf(rs[i], f))|
    && cap == |Text(rs[..i])| + |Before(rs[i], f)| + k
  }

  /** The list as it is read then. */
  function CutList(rs: seq<Range>, i: nat, f: Field, k: nat): seq<Range>
    requires i < |rs| && NonNeg(rs[i]) && k <= |Dec(NumberOf(rs[i], f))|
  {
    rs[..i] + [CutRange(rs[i], f, k)] + rs[i + 1..]
  }

  /** The line touches the new range when that has been written already: it is dropped. */
  predicate Spared(rs: seq<Range>, n: Range, i: nat, r: Range)
    requires i <= |rs|
  {
    PassAt(rs, n, i).found && Touches(PassAt(rs, n, i).range, r)
  }

  predicate Missing(rs: seq<Range>, n: Range, x: int) {
    !Covers(rs, x) && !Has(n, x)
  }

  /** A byte between the start that is read and the true one was neither recorded nor sent now. */
  predicate Gap(rs: seq<Range>, n: Range, i: nat, r: Range)
    requires i < |rs|
  {
    exists x | r.start <= x < rs[i].start :: Missing(rs, n, x)
  }

  lemma CutBounds(r: Range, f: Field, k: nat, total: int)
    requires Accepted(r, total) && 0 < k <= |Dec(NumberOf(r, f))|
    ensures NonNeg(r) && NonNeg(CutRange(r, f, k))
    ensures var c := CutRange(r, f, k);
            match f
            case FStart => c == r.(start := c.start) && c.start <= r.start
            case FEnd => c == r.(end := c.end) && c.end <= r.end
            case FTotal => !LineOk(c, total)
  {
    match f
    case FStart => CutLess(r.start, k);
    case FEnd => CutLess(r.end, k);
    case FTotal => CutTotal(r, f, k, total);
  }

  /** The rest of the list, around line i. */
  lemma CoversAround(rs: seq<Range>, i: nat, x: int)
    requires i < |rs|
    ensures Covers(rs, x) <==> Covers(rs[..i], x) || Has(rs[i], x) || Covers(rs[i + 1..], x)
  {
    assert rs == rs[..i] + ([rs[i]] + rs[i + 1..]);
    CoversAppend(rs[..i], [rs[i]] + rs[i + 1..], x);
    CoversAppend([rs[i]], rs[i + 1..], x);
  }

  lemma OnlyLine(rs: seq<Range>, i: nat, r: Range, n: Range, x: int)
    requires i < |rs| && Missing(rs, n, x)
    ensures Covers(Merge(rs[..i] + [r] + rs[i + 1..], n).ranges, x) <==> Has(r, x) && !Spared(rs, n, i, r)
  {
    var l := rs[..i] + [r] + rs[i + 1..];
    ClaimsOf(l, n, true, x);
    assert l[..i] == rs[..i] && l[i] == r;
    CoversWitness(rs, x);
    forall j | 0 <= j < |l| && j != i ensures !Has(l[j], x) {
      assert l[j] == rs[j] && !Has(rs[j], x);
    }
    assert Dropped(l, n, true, i) <==> Spared(rs, n, i, r);
  }

  /** Any file of two buffers that is cut behind a digit and accepted: the new file claims a byte that was
      neither recorded nor new if and only if the cut falls into a start, a byte is missing between the start
      that is read and the true one, and the line is not dropped. */
  lemma CutClaimsIff(rs: seq<Range>, n: Range, total: int, cap: nat, i: nat, f: Field, k: nat)
    requires Stored(rs, total) && Readable(rs, total) && Accepted(n, total)
    requires CutAt(rs, cap, i, f, k) && |Text(rs)| <= 2 * cap && LineOk(CutRange(rs[i], f, k), total)
    ensures var r := CutRange(rs[i], f, k);
            && MergeFile(Text(rs), n, cap, true) == MergedFile(CutList(rs, i, f, k), n)
            && ((exists x :: Covers(Merge(CutList(rs, i, f, k), n).ranges, x) && Missing(rs, n, x))
                <==> f == FStart && Gap(rs, n, i, r) && !Spared(rs, n, i, r))
  {
    var r := CutRange(rs[i], f, k);
    assert rs[i] in rs;
    CutNumber(rs, n, total, cap, i, f, k);
    CutBounds(rs[i], f, k, total);
    forall x | Missing(rs, n, x)
      ensures Covers(Merge(CutList(rs, i, f, k), n).ranges, x) <==> Has(r, x) && !Spared(rs, n, i, r)
      ensures !Has(rs[i], x)
    {
      OnlyLine(rs, i, r, n, x);
      CoversAround(rs, i, x);
    }
  }

  // -------------------------------------------------- false completion

  /** What a pass finds does not depend on what it has printed. */
  lemma {:induction false} SameCourse(p: Pass, q: Pass, rest: seq<Range>)
    requires p.range == q.range && p.found == q.found
    ensures MergeFrom(p, rest).range == MergeFrom(q, rest).range && MergeFrom(p, rest).found == MergeFrom(q, rest).found
    decreases |rest|
  {
    if rest != [] {
      SameCourse(MergeStep(p, rest[0]), MergeStep(q, rest[0]), rest[1..]);
    }
  }

  lemma SplitMerge(rs: seq<Range>, i: nat, r: Range, n: Range)
    requires i < |rs|
    ensures Merge(rs[..i] + [r] + rs[i + 1..], n) == MergeEnd(MergeFrom(MergeStep(PassAt(rs, n, i), r), rs[i + 1..]))
  {
    var p0 := Pass([], n, false);
    MergeFromAppend(p0, rs[..i] + [r], rs[i + 1..]);
    MergeFromAppend(p0, rs[..i], [r]);
    OneStep(PassAt(rs, n, i), r);
  }

  /** The list with line i as it is. */
  lemma SplitWhole(rs: seq<Range>, i: nat, n: Range)
    requires i < |rs|
    ensures Merge(rs, n) == MergeEnd(MergeFrom(MergeStep(PassAt(rs, n, i), rs[i]), rs[i + 1..]))
  {
    assert rs == rs[..i] + [rs[i]] + rs[i + 1..];
    SplitMerge(rs, i, rs[i], n);
  }

  /** A line that does not touch the new range leaves the completion flag as the true line would. */
  lemma ApartComplete(rs: seq<Range>, n: Range, i: nat, r: Range)
    requires i < |rs| && r.end == rs[i].end && r.start <= rs[i].start && !Touches(PassAt(rs, n, i).range, r)
    ensures Merge(rs[..i] + [r] + rs[i + 1..], n).complete == Merge(rs, n).complete
  {
    var p := PassAt(rs, n, i);
    SplitMerge(rs, i, r, n);
    SplitWhole(rs, i, n);
    SameCourse(MergeStep(p, r), MergeStep(p, rs[i]), rs[i + 1..]);
  }

  /** A line that is absorbed before the new range was written: what is left decides. */
  lemma AbsorbedComplete(rs: seq<Range>, n: Range, i: nat, r: Range)
    requires i < |rs| && Touches(PassAt(rs, n, i).range, r)
    ensures Merge(rs[..i] + [r] + rs[i + 1..], n).complete
            <==> !PassAt(rs, n, i).found && Merge(rs[i + 1..], Hull(PassAt(rs, n, i).range, r)).complete
  {
    var p, tail := PassAt(rs, n, i), rs[i + 1..];
    var hull := Hull(p.range, r);
    SplitMerge(rs, i, r, n);
    FoundFrom(MergeStep(p, r), tail);
    SameCourse(MergeStep(p, r), Pass([], hull, p.found), tail);
  }

  lemma {:induction false} FoundFrom(p: Pass, rest: seq<Range>)
    ensures p.found ==> MergeFrom(p, rest).found
    decreases |rest|
  {
    if rest != [] {
      FoundFrom(MergeStep(p, rest[0]), rest[1..]);
    }
  }

  /** From the range read with line i on, every byte is there. */
  predicate Closed(rs: seq<Range>, n: Range, i: nat, r: Range, total: int)
    requires i < |rs|
  {
    var p := PassAt(rs, n, i);
    !p.found && Touches(p.range, r)
    && forall x | 0 <= x < total :: Has(Hull(p.range, r), x) || Covers(rs[i + 1..], x)
  }

  lemma TailStored(rs: seq<Range>, i: nat, total: int)
    requires Stored(rs, total) && i < |rs|
    ensures Stored(rs[i + 1..], total) && Accepted(rs[i], total)
    ensures forall r | r in rs[i + 1..] :: rs[i].end + 1 < r.start
  {
    StoredSlice(rs, total, i + 1, |rs|);
    assert rs[i + 1..|rs|] == rs[i + 1..] && rs[i] in rs;
    forall r | r in rs[i + 1..] ensures rs[i].end + 1 < r.start {
      var j :| 0 <= j < |rs[i + 1..]| && rs[i + 1..][j] == r;
      assert rs[i + 1 + j] == r;
    }
  }

  lemma CutComplete(rs: seq<Range>, n: Range, total: int, i: nat, r: Range)
    requires Stored(rs, total) && Accepted(n, total) && i < |rs|
    requires r == rs[i].(start := r.start) && 0 <= r.start <= rs[i].start
    ensures Merge(rs[..i] + [r] + rs[i + 1..], n).complete <==>
              if Touches(PassAt(rs, n, i).range, r) then Closed(rs, n, i, r, total) else Merge(rs, n).complete
  {
    var p := PassAt(rs, n, i);
    if Touches(p.range, r) {
      AbsorbedComplete(rs, n, i, r);
      TailStored(rs, i, total);
      PassThere(rs, n, total, i);
      CompleteIffWhole(rs[i + 1..], Hull(p.range, r), total);
    } else {
      ApartComplete(rs, n, i, r);
    }
  }

  /** A missing byte of the range read is one between the start that is read and the true one. */
  lemma MissingInGap(rs: seq<Range>, n: Range, total: int, i: nat, r: Range, x: int)
    requires Stored(rs, total) && Accepted(n, total) && i < |rs| && r == rs[i].(start := r.start)
    requires Missing(rs, n, x) && Closed(rs, n, i, r, total) && 0 <= x < total
    ensures r.start <= x < rs[i].start
  {
    var p := PassAt(rs, n, i);
    CoversAround(rs, i, x);
    CoversWitness(rs, x);
    PassClaims(rs, n, i, x);
    assert !Has(p.range, x);
    assert Has(Hull(p.range, r), x);
    HullOnly(p.range, r, x);
  }

  lemma HullOnly(a: Range, b: Range, x: int)
    requires Touches(a, b) && Has(Hull(a, b), x)
    ensures Has(a, x) || Has(b, x)
  {
  }

  /** When such a file is declared complete with a byte missing: the cut falls into a start, bytes between the
      start read and the true one are missing, the line is absorbed before the new range was written, and from
      there on every byte is there. */
  lemma FalselyCompleteIff(rs: seq<Range>, n: Range, total: int, cap: nat, i: nat, f: Field, k: nat)
    requires Stored(rs, total) && Readable(rs, total) && Accepted(n, total)
    requires CutAt(rs, cap, i, f, k) && |Text(rs)| <= 2 * cap && LineOk(CutRange(rs[i], f, k), total)
    ensures var r := CutRange(rs[i], f, k);
            MergeFile(Text(rs), n, cap, true).Complete? && (exists x | 0 <= x < total :: Missing(rs, n, x))
            <==> f == FStart && Gap(rs, n, i, r) && Closed(rs, n, i, r, total)
  {
    var r := CutRange(rs[i], f, k);
    assert rs[i] in rs;
    CutNumber(rs, n, total, cap, i, f, k);
    CutBounds(rs[i], f, k, total);
    if f == FStart {
      StartCutComplete(rs, n, total, i, r);
    } else {
      EndCutStored(rs, total, i, f, k);
      CompleteIffWhole(CutList(rs, i, f, k), n, total);
    }
  }

  lemma StartCutComplete(rs: seq<Range>, n: Range, total: int, i: nat, r: Range)
    requires Stored(rs, total) && Accepted(n, total) && i < |rs|
    requires r == rs[i].(start := r.start) && 0 <= r.start <= rs[i].start
    ensures Merge(rs[..i] + [r] + rs[i + 1..], n).complete && (exists x | 0 <= x < total :: Missing(rs, n, x))
            <==> Gap(rs, n, i, r) && Closed(rs, n, i, r, total)
  {
    assert rs[i] in rs;
    CutComplete(rs, n, total, i, r);
    CompleteIffWhole(rs, n, total);
    if Closed(rs, n, i, r, total) {
      forall x | 0 <= x < total && Missing(rs, n, x) ensures r.start <= x < rs[i].start {
        MissingInGap(rs, n, total, i, r, x);
      }
    }
  }

  /** A cut in an end only takes bytes away. */
  lemma EndCutStored(rs: seq<Range>, total: int, i: nat, f: Field, k: nat)
    requires Stored(rs, total) && i < |rs| && NonNeg(rs[i]) && 0 < k <= |Dec(NumberOf(rs[i], f))| && f == FEnd
    requires LineOk(CutRange(rs[i], f, k), total)
    ensures Stored(CutList(rs, i, f, k), total)
    ensures forall x | Covers(CutList(rs, i, f, k), x) :: Covers(rs, x)
  {
    var r, l := CutRange(rs[i], f, k), CutList(rs, i, f, k);
    assert rs[i] in rs;
    CutBounds(rs[i], f, k, total);
    assert forall j | 0 <= j < |l| :: l[j] == if j == i then r else rs[j];
    forall x | Covers(l, x) ensures Covers(rs, x) {
      CoversWitness(l, x);
      CoversWitness(rs, x);
      var j :| 0 <= j < |l| && Has(l[j], x);
      assert Has(rs[j], x);
    }
  }

  // ------------------------------------------------------- when no harm is done

  /** The cut is accepted, and no byte is missing between the start read and the true one unless the line is
      dropped. */
  predicate Harmless(rs: seq<Range>, n: Range, i: nat, f: Field, k: nat)
    requires i < |rs| && NonNeg(rs[i]) && k <= |Dec(NumberOf(rs[i], f))|
  {
    var r := CutRange(rs[i], f, k);
    LineOk(r, n.total) && (Gap(rs, n, i, r) ==> Spared(rs, n, i, r))
  }

  /** With no byte missing, the line read does to the new range what the true one does. */
  lemma SameStep(rs: seq<Range>, n: Range, total: int, i: nat, r: Range)
    requires Stored(rs, total) && Accepted(n, total) && i < |rs| && r == rs[i].(start := r.start)
    requires 0 <= r.start <= rs[i].start && !Gap(rs, n, i, r)
    ensures MergeStep(PassAt(rs, n, i), r) == MergeStep(PassAt(rs, n, i), rs[i])
  {
    if r.start < rs[i].start {
      var p, s := PassAt(rs, n, i), rs[i].start;
      NotRecorded(rs, total, i, s - 1);
      assert !Missing(rs, n, s - 1);
      NewKept(rs, n, i);
      PassThere(rs, n, total, i);
      assert rs[i] in rs[i..] by {
        assert rs[i..][0] == rs[i];
      }
      assert !p.found && p.range.start <= s - 1 <= p.range.end;
      if r.start < p.range.start {
        BelowRange(rs, n, total, i, p.range.start - 1);
      }
      assert p.range.start <= r.start;
    } else {
      assert r == rs[i];
    }
  }

  lemma NotRecorded(rs: seq<Range>, total: int, i: nat, x: int)
    requires Stored(rs, total) && i < |rs| && x == rs[i].start - 1
    ensures !Covers(rs, x)
  {
    CoversWitness(rs, x);
  }

  /** The new range only grows. */
  lemma NewKept(rs: seq<Range>, n: Range, i: nat)
    requires i <= |rs|
    ensures PassAt(rs, n, i).range.start <= n.start && n.end <= PassAt(rs, n, i).range.end
  {
    FoundBehind(Pass([], n, false), rs[..i]);
  }

  /** The byte right below the range of a pass is not recorded by what the pass has read, nor new. */
  lemma BelowRange(rs: seq<Range>, n: Range, total: int, i: nat, x: int)
    requires Stored(rs, total) && Accepted(n, total) && i < |rs| && !PassAt(rs, n, i).found
    requires x == PassAt(rs, n, i).range.start - 1 && x < rs[i].start
    ensures Missing(rs, n, x)
  {
    var p := PassAt(rs, n, i);
    NewKept(rs, n, i);
    PassThere(rs, n, total, i);
    CoversWitness(p.out, x);
    PassClaims(rs, n, i, x);
    CoversWitness(rs, x);
    FoundEarlier(rs, n, i);
  }

  lemma FoundEarlier(rs: seq<Range>, n: Range, i: nat)
    requires i <= |rs| && !PassAt(rs, n, i).found
    ensures forall j | 0 <= j <= i :: !PassAt(rs, n, j).found
  {
    forall j | 0 <= j <= i ensures !PassAt(rs, n, j).found {
      if PassAt(rs, n, j).found {
        FoundStays(rs, n, j, i);
      }
    }
  }

  /** A dropped line leaves a list with gaps. */
  lemma SparedStored(rs: seq<Range>, n: Range, total: int, i: nat, r: Range)
    requires Stored(rs, total) && Accepted(n, total) && i < |rs| && r == rs[i].(start := r.start)
    requires 0 <= r.start <= rs[i].start && Spared(rs, n, i, r)
    ensures Stored(Merge(rs[..i] + [r] + rs[i + 1..], n).ranges, total)
  {
    var p, tail := PassAt(rs, n, i), rs[i + 1..];
    SplitMerge(rs, i, r, n);
    PassThere(rs, n, total, i);
    TailStored(rs, i, total);
    assert forall q | q in tail :: q in rs[i..] by {
      assert rs[i..][1..] == tail;
    }
    assert rs[i] in rs[i..] by {
      assert rs[i..][0] == rs[i];
    }
    assert PassInv(MergeStep(p, r), tail, total);
    MergeFromInv(MergeStep(p, r), tail, total);
    FoundFrom(MergeStep(p, r), tail);
  }

  /** After a harmless cut the state file holds a list with gaps that claims no byte too many. */
  lemma HarmlessCut(rs: seq<Range>, n: Range, total: int, cap: nat, i: nat, f: Field, k: nat)
    requires Stored(rs, total) && Readable(rs, total) && Accepted(n, total)
    requires CutAt(rs, cap, i, f, k) && |Text(rs)| <= 2 * cap && Harmless(rs, n, i, f, k)
    ensures MergeFile(Text(rs), n, cap, true) == MergedFile(CutList(rs, i, f, k), n)
    ensures var m := Merge(CutList(rs, i, f, k), n);
            && Stored(m.ranges, total)
            && (forall x | Covers(m.ranges, x) :: !Missing(rs, n, x))
            && (m.complete ==> forall x | 0 <= x < total :: !Missing(rs, n, x))
  {
    var r, m := CutRange(rs[i], f, k), Merge(CutList(rs, i, f, k), n);
    assert rs[i] in rs;
    CutBounds(rs[i], f, k, total);
    CutClaimsIff(rs, n, total, cap, i, f, k);
    if f == FEnd {
      EndCutStored(rs, total, i, f, k);
      MergeIsUnion(CutList(rs, i, f, k), n, total);
    } else if Spared(rs, n, i, r) {
      SparedStored(rs, n, total, i, r);
    } else {
      SameStep(rs, n, total, i, r);
      SplitMerge(rs, i, r, n);
      SplitWhole(rs, i, n);
      MergeIsUnion(rs, n, total);
    }
    if m.complete {
      forall x | 0 <= x < total ensures !Missing(rs, n, x) {
        WholeClaimed(CutList(rs, i, f, k), n, x);
      }
    }
  }

  lemma WholeClaimed(l: seq<Range>, n: Range, x: int)
    requires Merge(l, n).complete && 0 <= x < n.total
    ensures Covers(Merge(l, n).ranges, x)
  {
    RangeKept(Pass([], n, false), l);
    CompleteClaimsAll(l, n, x);
  }
}
