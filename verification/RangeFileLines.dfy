/** State files of which the loop reads whole lines: what is lost then is lines, and what is left is the
    text of a list that claims no byte too many. */
module RangeFileLines {
  import opened Sequences
  import opened Ranges
  import opened RangeText
  import opened RangeTextProofs
  import opened RangeFile
  import opened RangeFileProofs
  import opened RangeFileSeen
  import opened RangeFileSkips
  import opened RangeFileCuts
  import opened Wrappers

  /** No buffer that others follow ends behind a digit, and every skip is from the end of a line to the end
      of a line. */
  predicate Orderly(read: Reader, text: string, offset: nat, out: string, s: State, cap: nat)
    requires offset <= |text| && cap > 0
    decreases |text| - offset
  {
    var chunk := TurnChunk(text, |text|, offset, cap);
    var end := offset + |chunk|;
    var next, t := end + |out|, read(s, chunk, end == |text|);
    t.Some? && next < |text| ==>
      && !IsDigit(text[end - 1])
      && (out != [] ==> text[end - 1] == '\n' == text[next - 1])
      && Orderly(read, text, next, t.value.out, Resume(t.value), cap)
  }

  lemma OrderlyTurn(read: Reader, text: string, offset: nat, out: string, s: State, cap: nat, end: nat, next: nat,
                    t: State)
    requires cap > 0 && end == offset + cap && next == end + |out| < |text|
    requires read(s, text[offset..end], false) == Some(t) && Orderly(read, text, offset, out, s, cap)
    ensures !IsDigit(text[end - 1]) && (out != [] ==> text[end - 1] == '\n' == text[next - 1])
    ensures Orderly(read, text, next, t.out, Resume(t), cap)
  {
  }

  // ------------------------------------------------------------- places

  /** Place p of the text is behind i lines and `head`, which begins the next one. */
  predicate At(rs: seq<Range>, p: nat, i: nat, head: string) {
    && i <= |rs| && p <= |Text(rs)| && Text(rs)[..p] == Text(rs[..i]) + head && '\n' !in head
    && (i == |rs| ==> head == []) && (i < |rs| ==> head <= Line(rs[i]) && |head| < |Line(rs[i])|)
  }

  lemma Place(rs: seq<Range>, p: nat) returns (i: nat, head: string)
    requires p <= |Text(rs)|
    ensures At(rs, p, i, head)
  {
    i, head := CutLine(rs, p);
    if i < |rs| {
      TextAround(rs, i, Line(rs[i]));
      PartOfMiddle(Text(rs), p, Text(rs[..i]), Line(rs[i]), Text(rs[i + 1..]), head);
    }
  }

  lemma PlaceOfEnd(rs: seq<Range>, i: nat, head: string)
    requires At(rs, |Text(rs)|, i, head)
    ensures i == |rs| && head == []
  {
    if i < |rs| {
      TextAround(rs, i, Line(rs[i]));
    }
  }

  lemma PlaceInside(rs: seq<Range>, p: nat, i: nat, head: string)
    requires At(rs, p, i, head) && p < |Text(rs)|
    ensures i < |rs|
  {
    assert rs[..|rs|] == rs && |Text(rs)[..p]| == p;
  }

  lemma PlaceOfBreak(rs: seq<Range>, p: nat, i: nat, head: string)
    requires At(rs, p, i, head) && p > 0 && Text(rs)[p - 1] == '\n'
    ensures head == []
  {
    assert Text(rs)[p - 1] == (Text(rs[..i]) + head)[p - 1];
  }

  /** Between two places: what completes the line begun, whole lines, what begins another. */
  lemma Between(rs: seq<Range>, p: nat, i: nat, head: string, q: nat, j: nat, head': string, mid: string)
    requires p <= q <= |Text(rs)| && At(rs, p, i, head) && At(rs, q, j, head') && mid == Text(rs)[p..q]
    ensures i <= j && head + mid == Text(rs[i..j]) + head'
  {
    LaterCut(rs, i, head, j, head');
    assert rs[..j] == rs[..i] + rs[i..j];
    TextAppend(rs[..i], rs[i..j]);
    TakeMore(Text(rs), p, q);
    SameMiddle(Text(rs[..i]), head, mid, Text(rs[i..j]), head');
  }

  lemma TakeMore(text: string, p: nat, q: nat)
    requires p <= q <= |text|
    ensures text[..q] == text[..p] + text[p..q]
  {
  }

  lemma SameMiddle(a: string, b: string, c: string, d: string, e: string)
    requires a + b + c == a + d + e
    ensures b + c == d + e
  {
    Assoc(a, b, c);
    Assoc(a, d, e);
    assert (a + (b + c))[|a|..] == b + c && (a + (d + e))[|a|..] == d + e;
  }

  // ------------------------------------------------------ lines that are read

  /** Some of the ranges of a list. */
  predicate PartOf(sub: seq<Range>, rs: seq<Range>, total: int) {
    Stored(sub, total) && forall r | r in sub :: r in rs
  }

  lemma StoredSlice(rs: seq<Range>, total: int, i: nat, j: nat)
    requires Stored(rs, total) && i <= j <= |rs|
    ensures Stored(rs[i..j], total)
  {
    assert forall r | r in rs[i..j] :: r in rs;
  }

  lemma SliceIn(rs: seq<Range>, i: nat, j: nat, k: nat, l: nat)
    requires k <= i <= j <= l <= |rs|
    ensures forall r | r in rs[i..j] :: r in rs[k..l]
  {
    forall r | r in rs[i..j] ensures r in rs[k..l] {
      var x :| 0 <= x < j - i && rs[i..j][x] == r;
      assert rs[k..l][x + i - k] == r;
    }
  }

  lemma PartJoined(rs: seq<Range>, total: int, i: nat, j: nat, k: nat, top: nat, sub: seq<Range>)
    requires Stored(rs, total) && i <= j <= k <= top <= |rs| && PartOf(sub, rs[k..top], total)
    ensures PartOf(rs[i..j] + sub, rs[i..top], total)
  {
    StoredSlice(rs, total, i, j);
    SliceIn(rs, i, j, i, top);
    SliceIn(rs, k, top, i, top);
    forall r, q | r in rs[i..j] && q in sub ensures r.end + 1 < q.start {
      var x :| 0 <= x < j - i && rs[i..j][x] == r;
      var y :| 0 <= y < top - k && rs[k..top][y] == q;
      assert rs[i + x] == r && rs[k + y] == q;
    }
    GappedJoin(rs[i..j], sub);
  }

  lemma GappedJoin(a: seq<Range>, b: seq<Range>)
    requires Gapped(a) && Gapped(b) && forall r, q | r in a && q in b :: r.end + 1 < q.start
    ensures Gapped(a + b)
  {
    forall i, j | 0 <= i < j < |a + b| ensures (a + b)[i].end + 1 < (a + b)[j].start {
      assert i < |a| <= j ==> a[i] in a && b[j - |a|] in b;
    }
  }

  function Top(rs: seq<Range>, ended: bool): int {
    if ended then |rs| else |rs| - 1
  }

  /** What is read behind place (i, head), `seen`, is lines of the list and the beginning of another. */
  predicate Reads(rs: seq<Range>, total: int, i: nat, head: string, seen: (string, bool),
                  sub: seq<Range>, part: string, last: Range) {
    && i <= Top(rs, seen.1) && PartOf(sub, rs[i..Top(rs, seen.1)], total)
    && head + seen.0 == Text(sub) + part && (seen.1 ==> part == [])
    && '\n' !in part && (part != [] ==> last in rs && part <= Line(last))
  }

  lemma {:induction false} LinesSeen(read: Reader, rs: seq<Range>, total: int, text: string, offset: nat, out: string,
                                     s: State, cap: nat, i: nat, head: string)
    returns (sub: seq<Range>, part: string, last: Range)
    requires Stored(rs, total) && text == Text(rs) && At(rs, offset, i, head) && cap > 0
    requires Orderly(read, text, offset, out, s, cap)
    ensures Reads(rs, total, i, head, Seen(read, text, offset, out, s, cap), sub, part, last)
    decreases |text| - offset
  {
    var chunk, end := ChunkOf(text, offset, cap);
    var next, t := end + |out|, read(s, chunk, end == |text|);
    var j, head1 := Place(rs, end);
    Between(rs, offset, i, head, end, j, head1, chunk);
    if t.None? || next >= |text| {
      LastSeen(read, text, offset, out, s, cap, chunk, end);
      sub, part, last := LastLines(rs, total, i, head, end, j, head1, chunk, end == |text|);
    } else {
      OrderlyTurn(read, text, offset, out, s, cap, end, next, t.value);
      var k := NextPlace(rs, end, j, head1, next, out);
      sub, part, last := LinesSeen(read, rs, total, text, next, t.value.out, Resume(t.value), cap, k, head1);
      MoreSeen(read, text, offset, out, s, cap, chunk, next, t.value);
      TrimmedPrefix(chunk);
      sub := MoreLines(rs, total, i, head, j, head1, k, chunk,
          Seen(read, text, next, t.value.out, Resume(t.value), cap),
                       sub, part, last);
    }
  }

  lemma ChunkOf(text: string, offset: nat, cap: nat) returns (chunk: string, end: nat)
    requires offset <= |text| && cap > 0
    ensures chunk == TurnChunk(text, |text|, offset, cap) && offset <= end <= |text| && chunk == text[offset..end]
    ensures end == offset + |chunk| && (end < |text| ==> end == offset + cap)
  {
    chunk := TurnChunk(text, |text|, offset, cap);
    end := offset + |chunk|;
  }

  lemma MoreLines(rs: seq<Range>, total: int, i: nat, head: string, j: nat, head1: string, k: nat, chunk: string,
                  rest: (string, bool), sub: seq<Range>, part: string, last: Range)
    returns (lines: seq<Range>)
    requires Stored(rs, total) && i <= j <= k && j <= |rs| && Reads(rs, total, k, head1, rest, sub, part, last)
    requires head + chunk == Text(rs[i..j]) + head1
    ensures Reads(rs, total, i, head, (chunk + rest.0, rest.1), lines, part, last)
  {
    lines := rs[i..j] + sub;
    PartJoined(rs, total, i, j, k, Top(rs, rest.1), sub);
    LinesJoined(head, chunk, rs[i..j], head1, rest.0, sub, part);
  }

  lemma LastLines(rs: seq<Range>, total: int, i: nat, head: string, end: nat, j: nat, head1: string, chunk: string,
                  ended: bool)
    returns (sub: seq<Range>, part: string, last: Range)
    requires Stored(rs, total) && At(rs, end, j, head1) && i <= j && ended == (end == |Text(rs)|)
    requires head + chunk == Text(rs[i..j]) + head1
    ensures Reads(rs, total, i, head, (chunk, ended), sub, part, last)
  {
    LastPlace(rs, end, j, head1, ended);
    SlicePart(rs, total, i, j, Top(rs, ended));
    sub, part := rs[i..j], head1;
    last := if j < |rs| then rs[j] else Range(0, 0, 0);
  }

  lemma LastPlace(rs: seq<Range>, end: nat, j: nat, head: string, ended: bool)
    requires At(rs, end, j, head) && ended == (end == |Text(rs)|)
    ensures j <= Top(rs, ended) && (ended ==> head == [])
  {
    if ended {
      PlaceOfEnd(rs, j, head);
    } else {
      PlaceInside(rs, end, j, head);
    }
  }

  lemma SlicePart(rs: seq<Range>, total: int, i: nat, j: nat, top: nat)
    requires Stored(rs, total) && i <= j <= top <= |rs|
    ensures PartOf(rs[i..j], rs[i..top], total)
  {
    StoredSlice(rs, total, i, j);
    SliceIn(rs, i, j, i, top);
  }

  /** Where reading goes on: at once, or behind the lines that are skipped. */
  lemma NextPlace(rs: seq<Range>, end: nat, j: nat, head: string, next: nat, out: string) returns (k: nat)
    requires At(rs, end, j, head) && next == end + |out| < |Text(rs)|
    requires 0 < end && (out != [] ==> Text(rs)[end - 1] == '\n' == Text(rs)[next - 1])
    ensures j <= k && At(rs, next, k, head)
  {
    if out == [] {
      k := j;
    } else {
      var head2;
      k, head2 := Place(rs, next);
      PlaceOfBreak(rs, end, j, head);
      PlaceOfBreak(rs, next, k, head2);
      LaterCut(rs, j, head, k, head2);
    }
  }

  lemma LinesJoined(head: string, chunk: string, lines: seq<Range>, head1: string, rest: string, sub: seq<Range>,
                    part: string)
    requires head + chunk == Text(lines) + head1 && head1 + rest == Text(sub) + part
    ensures head + (chunk + rest) == Text(lines + sub) + part
  {
    TextAppend(lines, sub);
    Assoc(head, chunk, rest);
    Assoc(Text(lines), head1, rest);
    Assoc(Text(lines), Text(sub), part);
  }

  // ------------------------------------------------------- the file left behind

  /** What is printed from lines and the beginning of another. */
  lemma LinesPrinted(sub: seq<Range>, n: Range, total: int, part: string, ended: bool)
    requires Stored(sub, total) && Accepted(n, total) && '\n' !in part && (ended ==> part == [])
    requires Chunk(Initial(n), Text(sub) + part, ended).Some?
    ensures var t := Chunk(Initial(n), Text(sub) + part, ended).value;
            (if t.complete then Complete(t.out) else More(t.out)) == Printout(sub, n, ended)
  {
    StoredReadable(sub, total);
    FoldAppend(Initial(n), Text(sub), part);
    if ended {
      assert Text(sub) + part == Text(sub);
      MergeText(sub, n, total);
    } else {
      FoldText(Initial(n), Pass([], n, false), sub);
      NothingCompleted(Fold(Initial(n), Text(sub)).value, part);
    }
  }

  /** The text of the merged list, or of what a pass over the list prints before its end. */
  function Printout(sub: seq<Range>, n: Range, ended: bool): Outcome {
    if ended then MergedFile(sub, n) else More(Text(MergeFrom(Pass([], n, false), sub).out))
  }

  /** A state file of which whole lines are read is merged as the list of those lines, or refused for a
      line of a single byte. */
  lemma OrderlyMerge(rs: seq<Range>, n: Range, total: int, cap: nat) returns (sub: seq<Range>, part: string)
    requires Stored(rs, total) && Accepted(n, total) && cap > 0
    requires Orderly(Chunk, Text(rs), 0, [], Initial(n), cap)
    ensures SeenBy(Text(rs), n, cap).0 == Text(sub) + part && '\n' !in part
    ensures var ended := SeenBy(Text(rs), n, cap).1;
            && 0 <= Top(rs, ended) && PartOf(sub, rs[..Top(rs, ended)], total)
            && (MergeFile(Text(rs), n, cap, true) == Printout(sub, n, ended)
                || (MergeFile(Text(rs), n, cap, true).Corrupt? && !Readable(rs, total)))
  {
    var last;
    assert At(rs, 0, 0, []) by {
      assert rs[..0] == [];
    }
    sub, part, last := LinesSeen(Chunk, rs, total, Text(rs), 0, [], Initial(n), cap, 0, []);
    var seen := SeenBy(Text(rs), n, cap);
    assert rs[0..Top(rs, seen.1)] == rs[..Top(rs, seen.1)];
    assert [] + seen.0 == seen.0;
    StateFileIsSeen(Text(rs), n, cap);
    if Readable(rs, total) {
      LinesAccepted(rs, n, total, sub, part, last);
    }
    if Chunk(Initial(n), seen.0, seen.1).Some? {
      LinesPrinted(sub, n, total, part, seen.1);
    }
  }

  /** Lines of a readable list and the beginning of one of its lines are accepted. */
  lemma LinesAccepted(rs: seq<Range>, n: Range, total: int, sub: seq<Range>, part: string, last: Range)
    requires Stored(rs, total) && Readable(rs, total) && Accepted(n, total)
    requires Stored(sub, total) && forall r | r in sub :: r in rs
    requires part != [] ==> last in rs && part <= Line(last)
    ensures Fold(Initial(n), Text(sub) + part).Some?
    ensures part == [] ==> Chunk(Initial(n), Text(sub) + part, true).Some?
  {
    StoredReadable(sub, total);
    FoldText(Initial(n), Pass([], n, false), sub);
    FoldAppend(Initial(n), Text(sub), part);
    RangeKept(Pass([], n, false), sub);
    if part != [] {
      FoldLine(Fold(Initial(n), Text(sub)).value, last);
      PrefixAccepted(Fold(Initial(n), Text(sub)).value, Line(last), part);
    }
  }

  lemma PrefixAccepted(s: State, text: string, part: string)
    requires Fold(s, text).Some? && part <= text
    ensures Fold(s, part).Some?
  {
    assert text[..|part|] == part;
    FoldSome(s, text, |part|);
  }

  // ----------------------------------------------------- what the file claims

  lemma CoversPart(sub: seq<Range>, rs: seq<Range>, x: int)
    requires Covers(sub, x) && forall r | r in sub :: r in rs
    ensures Covers(rs, x)
  {
    CoversWitness(sub, x);
    CoversWitness(rs, x);
    var i :| 0 <= i < |sub| && Has(sub[i], x);
    assert sub[i] in rs;
  }

  lemma PrintoutClaims(sub: seq<Range>, n: Range, total: int, ended: bool) returns (ranges: seq<Range>)
    requires Stored(sub, total) && Accepted(n, total)
    ensures var o := Printout(sub, n, ended);
            && !o.Corrupt? && o.file == Text(ranges) && Stored(ranges, total)
            && (o.Complete? ==> forall x | 0 <= x < total :: Covers(sub, x) || Has(n, x))
    ensures forall x | Covers(ranges, x) :: Covers(sub, x) || Has(n, x)
  {
    if ended {
      MergeIsUnion(sub, n, total);
      CompleteIffWhole(sub, n, total);
      ranges := Merge(sub, n).ranges;
    } else {
      var p0 := Pass([], n, false);
      MergeFromInv(p0, sub, total);
      ranges := MergeFrom(p0, sub).out;
      forall x | Covers(ranges, x) ensures Covers(sub, x) || Has(n, x) {
        assert PassCovers(MergeFrom(p0, sub), x) <==> PassCovers(p0, x) || Covers(sub, x);
      }
    }
  }

  /** The new state file claims no byte that was neither recorded nor in the new range, and completeness is
      reported only if these are the whole file. */
  lemma OrderlyClaims(rs: seq<Range>, n: Range, total: int, cap: nat) returns (ranges: seq<Range>)
    requires Stored(rs, total) && Accepted(n, total) && cap > 0
    requires Orderly(Chunk, Text(rs), 0, [], Initial(n), cap)
    ensures var o := MergeFile(Text(rs), n, cap, true);
            || (o.Corrupt? && !Readable(rs, total))
            || (!o.Corrupt? && o.file == Text(ranges) && Stored(ranges, total)
                && (o.Complete? ==> forall x | 0 <= x < total :: Covers(rs, x) || Has(n, x)))
    ensures forall x | Covers(ranges, x) :: Covers(rs, x) || Has(n, x)
  {
    var sub, part := OrderlyMerge(rs, n, total, cap);
    ranges := PrintoutClaims(sub, n, total, SeenBy(Text(rs), n, cap).1);
    forall x | Covers(sub, x) ensures Covers(rs, x) {
      CoversPart(sub, rs, x);
    }
  }

  // ------------------------------------------------ when no line is missed

  lemma {:induction false} FoundBehind(p: Pass, rs: seq<Range>)
    ensures var q := MergeFrom(p, rs);
            && q.range.start <= p.range.start && p.range.end <= q.range.end
            && (q.found && !p.found ==> exists r :: r in rs && p.range.end < r.start)
    decreases |rs|
  {
    if rs != [] {
      FoundBehind(MergeStep(p, rs[0]), rs[1..]);
      var q := MergeFrom(p, rs);
      if q.found && !MergeStep(p, rs[0]).found {
        var r :| r in rs[1..] && MergeStep(p, rs[0]).range.end < r.start;
        assert r in rs;
      }
    }
  }

  /** If the last line is not read, a byte is missing from what was printed. */
  lemma TailMissing(rs: seq<Range>, n: Range, total: int, sub: seq<Range>) returns (x: int)
    requires Stored(rs, total) && rs != [] && Accepted(n, total) && PartOf(sub, rs[..|rs| - 1], total)
    ensures (Covers(rs, x) || Has(n, x)) && !Covers(MergeFrom(Pass([], n, false), sub).out, x)
  {
    var p0, last := Pass([], n, false), rs[|rs| - 1];
    var p := MergeFrom(p0, sub);
    MergeFromInv(p0, sub, total);
    FoundBehind(p0, sub);
    x := if p.found then last.end else n.start;
    assert PassCovers(p, x) <==> PassCovers(p0, x) || Covers(sub, x);
    CoversWitness(p.out, x);
    CoversWitness(sub, x);
    CoversWitness(rs, x);
    assert Has(last, last.end);
    EndsBefore(rs, sub, total);
  }

  lemma EndsBefore(rs: seq<Range>, sub: seq<Range>, total: int)
    requires Stored(rs, total) && rs != [] && forall r | r in sub :: r in rs[..|rs| - 1]
    ensures forall r | r in sub :: r.start <= r.end < rs[|rs| - 1].end
  {
    forall r | r in sub ensures r.start <= r.end < rs[|rs| - 1].end {
      var i :| 0 <= i < |rs| - 1 && rs[..|rs| - 1][i] == r;
      assert rs[i] == r && rs[i].end + 1 < rs[|rs| - 1].start <= rs[|rs| - 1].end;
    }
  }

  lemma SameMerge(rs: seq<Range>, sub: seq<Range>, n: Range, total: int)
    requires Stored(rs, total) && Accepted(n, total) && PartOf(sub, rs, total)
    ensures Merge(sub, n) == Merge(rs, n) <==> forall x | Covers(rs, x) :: Covers(sub, x) || Has(n, x)
  {
    MergeIsUnion(rs, n, total);
    MergeIsUnion(sub, n, total);
    if forall x | Covers(rs, x) :: Covers(sub, x) || Has(n, x) {
      forall x | Covers(sub, x) ensures Covers(rs, x) {
        CoversPart(sub, rs, x);
      }
      Canonical(Merge(sub, n).ranges, Merge(rs, n).ranges, total);
      CompleteIffWhole(rs, n, total);
      CompleteIffWhole(sub, n, total);
    } else {
      var x :| Covers(rs, x) && !Covers(sub, x) && !Has(n, x);
      assert Covers(Merge(rs, n).ranges, x) && !Covers(Merge(sub, n).ranges, x);
    }
  }

  lemma PrintoutRight(rs: seq<Range>, sub: seq<Range>, n: Range, total: int, ended: bool)
    requires Stored(rs, total) && Accepted(n, total)
    requires 0 <= Top(rs, ended) && PartOf(sub, rs[..Top(rs, ended)], total)
    ensures Printout(sub, n, ended) == MergedFile(rs, n)
            <==> ended && forall x | Covers(rs, x) :: Covers(sub, x) || Has(n, x)
  {
    StoredReadable(rs, total);
    StoredReadable(sub, total);
    if ended {
      assert rs[..|rs|] == rs;
      SameFile(sub, rs, n);
      SameMerge(rs, sub, n, total);
    } else {
      var x := TailMissing(rs, n, total, sub);
      MergeIsUnion(rs, n, total);
      MergeFromInv(Pass([], n, false), sub, total);
      NotSameText(MergeFrom(Pass([], n, false), sub).out, Merge(rs, n).ranges, total, x);
    }
  }

  lemma NotSameText(a: seq<Range>, b: seq<Range>, total: int, x: int)
    requires Stored(a, total) && Stored(b, total) && !Covers(a, x) && Covers(b, x)
    ensures Text(a) != Text(b)
  {
    StoredReadable(a, total);
    StoredReadable(b, total);
    if Text(a) == Text(b) {
      TextInjective(a, b);
    }
  }

  /** Of a state file of which whole lines are read the merged list is left exactly if the end is noticed
      and the new range makes up for the lines missed; `sub` are the lines read. */
  lemma OrderlyRightIff(rs: seq<Range>, n: Range, total: int, cap: nat) returns (sub: seq<Range>, part: string)
    requires Stored(rs, total) && Readable(rs, total) && Accepted(n, total) && cap > 0
    requires Orderly(Chunk, Text(rs), 0, [], Initial(n), cap)
    ensures SeenBy(Text(rs), n, cap).0 == Text(sub) + part && '\n' !in part
    ensures Stored(sub, total) && forall r | r in sub :: r in rs
    ensures MergeFile(Text(rs), n, cap, true) == MergedFile(rs, n)
            <==> SeenBy(Text(rs), n, cap).1 && forall x | Covers(rs, x) :: Covers(sub, x) || Has(n, x)
  {
    sub, part := OrderlyMerge(rs, n, total, cap);
    PrintoutRight(rs, sub, n, total, SeenBy(Text(rs), n, cap).1);
  }

  // ------------------------------------------------------ orderly files

  lemma {:induction false} UndisturbedIsOrderly(read: Reader, text: string, offset: nat, out: string, s: State,
                                                cap: nat)
    requires offset <= |text| && cap > 0 && Undisturbed(read, text, offset, out, s, cap)
    ensures Orderly(read, text, offset, out, s, cap)
    decreases |text| - offset
  {
    if |text| - offset > cap {
      var t := read(s, text[offset..offset + cap], false).value;
      UndisturbedTurn(read, text, offset, out, s, cap, offset + cap, t);
      UndisturbedIsOrderly(read, text, offset + cap, t.out, Resume(t), cap);
    }
  }

  /** A file that is read whole is orderly: one that is cut between numbers and of which no buffer before the
      last two prints, and so every file of at most two buffers that is not cut behind a digit. */
  lemma WholeIsOrderly(text: string, n: Range, cap: nat)
    requires cap > 0 && Chunk(Initial(n), text, true).Some? && CutsAtDelimiters(text, cap, 0)
    requires |text| <= 2 * cap || Silent(Chunk, text, 0, Initial(n), cap)
    ensures Orderly(Chunk, text, 0, [], Initial(n), cap)
  {
    ReadWhole(n, text, cap);
    SeenAll(Chunk, text, 0, [], Initial(n), cap);
    assert text[0..] == text;
    UndisturbedIsOrderly(Chunk, text, 0, [], Initial(n), cap);
  }
}
