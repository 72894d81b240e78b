/** Merges of which it can be told from the state file and the buffer that they are honest, and that keep the
    list of the state file in order. */
module CarefulUploads {
  import opened Ranges
  import opened RangeText
  import opened RangeTextProofs
  import opened RangeFile
  import opened RangeFileProofs
  import opened RangeFileSeen
  import opened RangeFileSkips
  import opened RangeFileCuts
  import opened RangeFileLines
  import opened RangeFileClaims
  import opened RangeFileCutClaims
  import opened UploadSession
  import opened Wrappers

  // -------------------------------------------------- merges that keep the list in order

  /** Only whole lines of the state file are skipped and no number is cut; and every line of a file of more
      than one buffer can be read. */
  predicate WholeLines(text: string, n: Range, cap: nat)
    requires cap > 0
  {
    && Orderly(Chunk, text, 0, [], Initial(n), cap)
    && (|text| <= cap || Chunk(Initial(n), text, true).Some?)
  }

  /** A file of two buffers with a cut that does no harm. */
  ghost predicate CutHarmlessly(text: string, n: Range, cap: nat) {
    |text| <= 2 * cap
    && exists rs, i, f, k ::
         Stored(rs, n.total) && Readable(rs, n.total) && text == Text(rs) && CutAt(rs, cap, i, f, k)
         && Harmless(rs, n, i, f, k)
  }

  ghost predicate Careful(text: string, n: Range, cap: nat)
    requires cap > 0
  {
    WholeLines(text, n, cap) || CutHarmlessly(text, n, cap)
  }

  ghost predicate CarefulRun(s: Session, events: seq<Event>, cap: nat)
    requires cap > 0
    decreases |events|
  {
    events != [] ==>
      && (Merges(s, events[0]) ==> Careful(s.text, s.open[events[0].id].range, cap))
      && CarefulRun(Next(s, events[0], cap), events[1..], cap)
  }

  /** A list whose lines are all accepted is a list of the new range's file. */
  lemma SameTotal(rs: seq<Range>, n: Range, total: int)
    requires Stored(rs, total) && Chunk(Initial(n), Text(rs), true).Some?
    ensures Stored(rs, n.total) && Readable(rs, n.total)
  {
    StoredReadable(rs, total);
    assert Zero(Initial(n)) == Initial(n);
    FoldText(Initial(n), Pass([], n, false), rs);
    forall r | r in rs ensures Accepted(r, n.total) {
      assert LineOk(r, n.total) && Accepted(r, total);
    }
  }

  /** A careful merge leaves a list with gaps that claims no byte too many, or the old one. */
  lemma CarefulClaims(rs: seq<Range>, n: Range, total: int, cap: nat) returns (list: seq<Range>, total': int)
    requires cap > 0 && Stored(rs, total) && Accepted(n, n.total) && Careful(Text(rs), n, cap)
    ensures Stored(list, total') && MergeFile(Text(rs), n, cap, true).file == Text(list)
    ensures forall x | Covers(list, x) :: !Missing(rs, n, x)
    ensures MergeFile(Text(rs), n, cap, true).Corrupt? ==> |Text(rs)| <= cap
  {
    StoredReadable(rs, total);
    if CutHarmlessly(Text(rs), n, cap) {
      var qs, i, f, k :| Stored(qs, n.total) && Readable(qs, n.total) && Text(rs) == Text(qs)
                         && CutAt(qs, cap, i, f, k) && Harmless(qs, n, i, f, k);
      StoredReadable(qs, n.total);
      TextInjective(rs, qs);
      HarmlessCut(rs, n, n.total, cap, i, f, k);
      list, total' := Merge(CutList(rs, i, f, k), n).ranges, n.total;
    } else if Chunk(Initial(n), Text(rs), true).None? {
      OneBufferKept(Text(rs), n, cap);
      list, total' := rs, total;
    } else {
      SameTotal(rs, n, total);
      total' := n.total;
      list := OrderlyClaims(rs, n, total', cap);
    }
  }

  lemma OneBufferKept(text: string, n: Range, cap: nat)
    requires 0 < cap && |text| <= cap && Chunk(Initial(n), text, true).None?
    ensures MergeFile(text, n, cap, true) == Corrupt(text)
  {
    assert TurnChunk(text, |text|, 0, cap) == text;
    LastSeen(Chunk, text, 0, [], Initial(n), cap, text, |text|);
    OneBufferRefused(text, n, cap);
  }

  lemma CarefulIsHonest(rs: seq<Range>, n: Range, total: int, cap: nat) returns (list: seq<Range>, total': int)
    requires cap > 0 && Stored(rs, total) && Accepted(n, n.total) && Careful(Text(rs), n, cap)
    ensures Honest(Text(rs), n, cap)
    ensures Stored(list, total') && MergeFile(Text(rs), n, cap, true).file == Text(list)
  {
    list, total' := CarefulClaims(rs, n, total, cap);
    var seen := SeenBy(Text(rs), n, cap);
    StateFileIsSeen(Text(rs), n, cap);
    StoredReadable(rs, total);
    StoredReadable(list, total');
    if Chunk(Initial(n), seen.0, seen.1).Some? {
      NoFalseClaimIff(rs, n, cap);
      TextInjective(list, NewList(Text(rs), n, cap));
      HonestIff(rs, n, cap);
    }
  }

  ghost predicate Ordered(s: Session) {
    && (exists rs, total :: Stored(rs, total) && s.text == Text(rs))
    && (forall id | id in s.open :: Accepted(s.open[id].range, s.open[id].range.total))
  }

  lemma StepOrdered(s: Session, e: Event, cap: nat)
    requires cap > 0 && Ordered(s) && (Merges(s, e) ==> Careful(s.text, s.open[e.id].range, cap))
    ensures Ordered(Next(s, e, cap)) && (Merges(s, e) ==> Honest(s.text, s.open[e.id].range, cap))
  {
    var rs, total :| Stored(rs, total) && s.text == Text(rs);
    if Merges(s, e) {
      var n := s.open[e.id].range;
      var list, total' := CarefulIsHonest(rs, n, total, cap);
      RecordedOrdered(s.(open := s.open - {e.id}), n.total, MergeFile(s.text, n, cap, true), list, total');
    } else {
      assert Next(s, e, cap).text == s.text;
    }
  }

  lemma RecordedOrdered(s: Session, total: int, o: Outcome, list: seq<Range>, total': int)
    requires Stored(list, total') && o.file == Text(list)
    requires forall id | id in s.open :: Accepted(s.open[id].range, s.open[id].range.total)
    ensures Ordered(Recorded(s, total, o))
  {
    assert Stored([], 0);
  }

  lemma {:induction false} CarefulRunIsHonest(s: Session, events: seq<Event>, cap: nat)
    requires cap > 0 && Ordered(s) && CarefulRun(s, events, cap)
    ensures HonestRun(s, events, cap) && Ordered(Run(s, events, cap))
    decreases |events|
  {
    if events != [] {
      StepOrdered(s, events[0], cap);
      CarefulRunIsHonest(Next(s, events[0], cap), events[1..], cap);
    }
  }

  /** With careful merges the same holds, and the state file is the text of a list with gaps at any time. */
  lemma CarefulUpload(events: seq<Event>, file: int -> Byte, cap: nat) returns (rs: seq<Range>, total: int)
    requires cap > 0 && GenuineRun(FRESH, events, file, cap) && CarefulRun(FRESH, events, cap)
    ensures var s := Run(FRESH, events, cap);
            && Stored(rs, total) && s.text == Text(rs)
            && (forall x | Covers(rs, x) :: x in s.content && s.content[x] == file(x))
            && (s.done.Some? ==>
                  forall x | 0 <= x < s.done.value :: x in s.content && s.content[x] == file(x))
  {
    assert Stored([], 0);
    CarefulRunIsHonest(FRESH, events, cap);
    var qs := UploadIsGenuine(events, file, cap);
    rs, total :| Stored(rs, total) && Run(FRESH, events, cap).text == Text(rs);
    StoredReadable(rs, total);
    TextInjective(rs, qs);
  }

  /** For a file of two buffers at most that is not refused, careful is exactly honest. */
  lemma CarefulIffHonest(rs: seq<Range>, n: Range, cap: nat)
    requires cap > 0 && Stored(rs, n.total) && Readable(rs, n.total) && Accepted(n, n.total) && |Text(rs)| <= 2 * cap
    requires var seen := SeenBy(Text(rs), n, cap); Chunk(Initial(n), seen.0, seen.1).Some?
    ensures Careful(Text(rs), n, cap) <==> Honest(Text(rs), n, cap)
  {
    MergeText(rs, n, n.total);
    StoredReadable(rs, n.total);
    if Careful(Text(rs), n, cap) {
      var list, total' := CarefulIsHonest(rs, n, n.total, cap);
    } else {
      if |Text(rs)| <= cap || !IsDigit(Text(rs)[cap - 1]) {
        SmallFileIsCareful(Text(rs), n, cap);
      }
      CutDishonest(rs, n, cap);
    }
  }

  lemma CutDishonest(rs: seq<Range>, n: Range, cap: nat)
    requires cap > 0 && Stored(rs, n.total) && Readable(rs, n.total) && Accepted(n, n.total)
    requires cap < |Text(rs)| <= 2 * cap && IsDigit(Text(rs)[cap - 1]) && !CutHarmlessly(Text(rs), n, cap)
    requires var seen := SeenBy(Text(rs), n, cap); Chunk(Initial(n), seen.0, seen.1).Some?
    ensures !Honest(Text(rs), n, cap)
  {
    StoredReadable(rs, n.total);
    var i, f, k := CutPlace(rs, cap);
    CutNumber(rs, n, n.total, cap, i, f, k);
    NoFalseClaimIff(rs, n, cap);
    assert CutAt(rs, cap, i, f, k);
    assert !Harmless(rs, n, i, f, k);
    CutNonNeg(rs, i, f, k);
    CutClaimsIff(rs, n, n.total, cap, i, f, k);
    MergeNonNeg(CutList(rs, i, f, k), n);
    TextInjective(NewList(Text(rs), n, cap), Merge(CutList(rs, i, f, k), n).ranges);
    HonestIff(rs, n, cap);
  }

  // ------------------------------------------------ what careful merges are

  /** A file of at most two buffers that is not cut behind a digit, the second only if its lines can be read. */
  lemma SmallFileIsCareful(text: string, n: Range, cap: nat)
    requires 0 < cap && |text| <= 2 * cap
    requires |text| > cap ==> !IsDigit(text[cap - 1]) && Chunk(Initial(n), text, true).Some?
    ensures Careful(text, n, cap)
  {
    if |text| > cap {
      assert CutsAtDelimiters(text, cap, cap);
      WholeIsOrderly(text, n, cap);
    } else {
      assert TurnChunk(text, |text|, 0, cap) == text;
    }
  }

  lemma WholeFile(rs: seq<Range>, n: Range, cap: nat)
    requires cap > 0 && Stored(rs, n.total) && Readable(rs, n.total) && Accepted(n, n.total)
    requires CutsAtDelimiters(Text(rs), cap, 0)
    requires |Text(rs)| <= 2 * cap || Silent(Chunk, Text(rs), 0, Initial(n), cap)
    ensures Careful(Text(rs), n, cap) && MergeFile(Text(rs), n, cap, true) == MergedFile(rs, n)
  {
    MergeText(rs, n, n.total);
    StoredReadable(rs, n.total);
    WholeIsOrderly(Text(rs), n, cap);
    MergedIffSilent(rs, n, n.total, cap);
  }

  /** A merge that reads the whole file is careful, leaves exactly the old bytes and the new ones on record,
      and finishes the upload exactly if they are the whole file. */
  lemma FinishRecords(s: Session, rs: seq<Range>, n: Range, cap: nat, s': Session) returns (ranges: seq<Range>)
    requires cap > 0 && s.text == Text(rs) && Stored(rs, n.total) && Readable(rs, n.total) && Accepted(n, n.total)
    requires s.done == None && s' == Recorded(s, n.total, MergeFile(s.text, n, cap, true))
    requires CutsAtDelimiters(s.text, cap, 0)
    requires |s.text| <= 2 * cap || Silent(Chunk, s.text, 0, Initial(n), cap)
    ensures Careful(s.text, n, cap) && Stored(ranges, n.total)
    ensures s'.done == if forall x | 0 <= x < n.total :: Covers(rs, x) || Has(n, x) then Some(n.total) else None
    ensures s'.text == if s'.done == None then Text(ranges) else ""
    ensures forall x :: Covers(ranges, x) <==> Covers(rs, x) || Has(n, x)
  {
    WholeFile(rs, n, cap);
    MergeIsUnion(rs, n, n.total);
    CompleteIffWhole(rs, n, n.total);
    ranges := Merge(rs, n).ranges;
  }
}
