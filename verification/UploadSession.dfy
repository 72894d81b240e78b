/** One resumable upload: segments of one file arrive in any order, overlap, fail and are retried, and
    share an output file and a state file (start, flush, finish and abort handlers). */
module UploadSession {
  import opened Ranges
  import opened RangeText
  import opened RangeTextProofs
  import opened RangeFile
  import opened RangeFileProofs
  import opened RangeFileSeen
  import opened RangeFileSkips
  import opened RangeFileCuts
  import opened RangeFileLines
  import opened RangeFileExamples
  import opened RangeFileClaims
  import opened RangeFileCutClaims
  import opened Wrappers

  type Byte = int

  /** A request in progress: its range and the offset of its next write (output_file.offset). */
  datatype Segment = Segment(range: Range, offset: int)

  /** `content` is the output file, `text` the state file, `done` whether the upload was declared
      finished, with the total of the segment that finished it. */
  datatype Session = Session(
    content: map<int, Byte>,
    text: string,
    open: map<nat, Segment>,
    done: Option<int>)

  datatype Event =
    | Start(id: nat, range: Range)
    | Flush(id: nat, buf: seq<Byte>)
    | Finish(id: nat)
    | Abort(id: nat)

  const FRESH := Session(map[], "", map[], None)

  function Write(content: map<int, Byte>, pos: int, buf: seq<Byte>): map<int, Byte>
    decreases |buf|
  {
    if buf == [] then content else Write(content[pos := buf[0]], pos + 1, buf[1..])
  }

  /** How much of `buf` the flush handler keeps: nothing behind the end of the range. */
  function Kept(seg: Segment, buf: seq<Byte>): seq<Byte> {
    if seg.offset > seg.range.end then []
    else if seg.offset + |buf| > seg.range.end + 1 then buf[..seg.range.end - seg.offset + 1]
    else buf
  }

  /** After the merge: a state file that reports completeness is deleted, and one that is refused stays as
      merge_ranges left it. */
  function Recorded(s: Session, total: int, o: Outcome): Session {
    match RcOf(o)
    case Ok => s.(text := "", done := Some(total))
    case Again => s.(text := o.file)
    case Error => s.(text := o.file)
  }

  /** `cap` is the room for the state file in the merge buffer. */
  function Next(s: Session, e: Event, cap: nat): Session
    requires cap > 0
  {
    match e
    case Start(id, range) =>
      if id !in s.open && Accepted(range, range.total) then
        s.(open := s.open[id := Segment(range, range.start)])
      else s
    case Flush(id, buf) =>
      if id in s.open then
        var seg := s.open[id];
        var kept := Kept(seg, buf);
        s.(content := Write(s.content, seg.offset, kept),
           open := s.open[id := seg.(offset := seg.offset + |kept|)])
      else s
    case Finish(id) =>
      if id !in s.open then s
      else
        var seg := s.open[id];
        var closed := s.(open := s.open - {id});
        if seg.offset != seg.range.end + 1 then closed
        else Recorded(closed, seg.range.total, MergeFile(s.text, seg.range, cap, true))
    case Abort(id) => s.(open := s.open - {id})
  }

  function Run(s: Session, events: seq<Event>, cap: nat): Session
    requires cap > 0
    decreases |events|
  {
    if events == [] then s else Run(Next(s, events[0], cap), events[1..], cap)
  }

  /** The bytes an event delivers are those of `file` at the places they go to. */
  ghost predicate Genuine(s: Session, e: Event, file: int -> Byte) {
    e.Flush? && e.id in s.open ==>
      var seg := s.open[e.id];
      forall k | 0 <= k < |Kept(seg, e.buf)| :: Kept(seg, e.buf)[k] == file(seg.offset + k)
  }

  ghost predicate GenuineRun(s: Session, events: seq<Event>, file: int -> Byte, cap: nat)
    requires cap > 0
    decreases |events|
  {
    events != [] ==> Genuine(s, events[0], file) && GenuineRun(Next(s, events[0], cap), events[1..], file, cap)
  }

  predicate NonNegative(rs: seq<Range>) {
    forall r | r in rs :: NonNeg(r)
  }

  /** A merge is honest if every line that it reads and does not drop lies within what the state file records
      and the new range; one that is refused has to find the whole file in one buffer. The list that a text
      records is determined by it. */
  ghost predicate Honest(text: string, n: Range, cap: nat)
    requires cap > 0
  {
    var seen := SeenBy(text, n, cap);
    if Chunk(Initial(n), seen.0, seen.1).None? then |text| <= cap
    else exists rs :: NonNegative(rs) && text == Text(rs) && Backed(LinesOf(Initial(n), seen.0), n, seen.1, rs)
  }

  predicate Merges(s: Session, e: Event) {
    e.Finish? && e.id in s.open && s.open[e.id].offset == s.open[e.id].range.end + 1
  }

  ghost predicate HonestRun(s: Session, events: seq<Event>, cap: nat)
    requires cap > 0
    decreases |events|
  {
    events != [] ==>
      && (Merges(s, events[0]) ==> Honest(s.text, s.open[events[0].id].range, cap))
      && HonestRun(Next(s, events[0], cap), events[1..], cap)
  }

  predicate Holds(content: map<int, Byte>, file: int -> Byte, x: int) {
    x in content && content[x] == file(x)
  }

  /** The state file is the text of a list, and the output file holds what the list says. */
  ghost predicate Records(rs: seq<Range>, text: string, content: map<int, Byte>, file: int -> Byte) {
    NonNegative(rs) && text == Text(rs) && forall x | Covers(rs, x) :: Holds(content, file, x)
  }

  /** What every step keeps. */
  ghost predicate Inv(s: Session, file: int -> Byte) {
    && (exists rs :: Records(rs, s.text, s.content, file))
    && (forall id | id in s.open :: SegmentInv(s.open[id], s.content, file))
    && (s.done.Some? ==> forall x | 0 <= x < s.done.value :: Holds(s.content, file, x))
  }

  ghost predicate SegmentInv(seg: Segment, content: map<int, Byte>, file: int -> Byte) {
    && Accepted(seg.range, seg.range.total)
    && seg.range.start <= seg.offset <= seg.range.end + 1
    && forall x | seg.range.start <= x < seg.offset :: Holds(content, file, x)
  }

  lemma {:induction false} WriteHolds(content: map<int, Byte>, pos: int, buf: seq<Byte>, file: int -> Byte)
    returns (c: map<int, Byte>)
    requires forall k | 0 <= k < |buf| :: buf[k] == file(pos + k)
    ensures c == Write(content, pos, buf)
    ensures forall x | Holds(content, file, x) :: Holds(c, file, x)
    ensures forall x | pos <= x < pos + |buf| :: Holds(c, file, x)
    decreases |buf|
  {
    if buf == [] {
      c := content;
    } else {
      var c0 := content[pos := buf[0]];
      assert buf[0] == file(pos + 0);
      assert Holds(c0, file, pos);
      forall k | 0 <= k < |buf[1..]| ensures buf[1..][k] == file(pos + 1 + k) {
        assert buf[1..][k] == buf[k + 1] == file(pos + (k + 1));
      }
      c := WriteHolds(c0, pos + 1, buf[1..], file);
    }
  }

  lemma {:induction false} Written(content: map<int, Byte>, pos: int, buf: seq<Byte>, x: int)
    ensures x in Write(content, pos, buf) <==> x in content || pos <= x < pos + |buf|
    ensures pos <= x < pos + |buf| ==> Write(content, pos, buf)[x] == buf[x - pos]
    ensures !(pos <= x < pos + |buf|) && x in content ==> Write(content, pos, buf)[x] == content[x]
    decreases |buf|
  {
    if buf != [] {
      Written(content[pos := buf[0]], pos + 1, buf[1..], x);
    }
  }

  /** A flush writes every byte that lies in the range of its segment, at its place, and nothing else. */
  lemma FlushWrites(s: Session, id: nat, buf: seq<Byte>, cap: nat, x: int)
    requires cap > 0 && id in s.open
    ensures var seg, content := s.open[id], Next(s, Flush(id, buf), cap).content;
            if seg.offset <= x < seg.offset + |buf| && x <= seg.range.end then
              x in content && content[x] == buf[x - seg.offset]
            else (x in content <==> x in s.content) && (x in content ==> content[x] == s.content[x])
  {
    Written(s.content, s.open[id].offset, Kept(s.open[id], buf), x);
  }

  /** A segment is moved on by its own data only, and closed by its end. */
  lemma SegmentAfter(s: Session, e: Event, cap: nat, id: nat)
    requires cap > 0 && id in s.open
    ensures var seg, open := s.open[id], Next(s, e, cap).open;
            match e
            case Flush(j, buf) =>
              && id in open && open[id].range == seg.range
              && open[id].offset == if j == id then seg.offset + |Kept(seg, buf)| else seg.offset
            case Finish(j) => if j == id then id !in open else id in open && open[id] == seg
            case Abort(j) => if j == id then id !in open else id in open && open[id] == seg
            case Start(_, _) => id in open && open[id] == seg
  {
  }

  /** What is recorded changes only at the end of a segment that was received in full. */
  lemma RecordKept(s: Session, e: Event, cap: nat)
    requires cap > 0 && !Merges(s, e)
    ensures Next(s, e, cap).text == s.text && Next(s, e, cap).done == s.done
  {
  }

  lemma FlushInv(s: Session, e: Event, file: int -> Byte, cap: nat)
    requires cap > 0 && e.Flush? && Inv(s, file) && Genuine(s, e, file)
    ensures Inv(Next(s, e, cap), file)
  {
    if e.id in s.open {
      var seg, kept := s.open[e.id], Kept(s.open[e.id], e.buf);
      var c := WriteHolds(s.content, seg.offset, kept, file);
      var seg' := seg.(offset := seg.offset + |kept|);
      assert SegmentInv(s.open[e.id], s.content, file);
      forall x | seg.range.start <= x < seg'.offset ensures Holds(c, file, x) {
        assert x < seg.offset ==> Holds(s.content, file, x);
      }
      assert SegmentInv(seg', c, file);
      var s' := Next(s, e, cap);
      var rs :| Records(rs, s.text, s.content, file);
      assert Records(rs, s'.text, c, file);
      assert s' == s.(content := c, open := s.open[e.id := seg']);
      forall id | id in s'.open ensures SegmentInv(s'.open[id], c, file) {
        if id != e.id {
          assert s'.open[id] == s.open[id] && SegmentInv(s.open[id], s.content, file);
        }
      }
    }
  }

  /** A file of one buffer that is refused is left alone. */
  lemma OneBufferRefused(text: string, n: Range, cap: nat)
    requires 0 < cap && |text| <= cap
    requires var seen := SeenBy(text, n, cap); Chunk(Initial(n), seen.0, seen.1).None?
    ensures MergeFile(text, n, cap, true) == Corrupt(text)
  {
    assert TurnChunk(text, |text|, 0, cap) == text;
    LastSeen(Chunk, text, 0, [], Initial(n), cap, text, |text|);
    OverlayNothing(text, 0);
  }

  /** An honest merge leaves a list that claims no byte too many, or the old one. */
  lemma MergeClaims(rs: seq<Range>, n: Range, cap: nat, o: Outcome) returns (list: seq<Range>)
    requires cap > 0 && NonNegative(rs) && Accepted(n, n.total) && Honest(Text(rs), n, cap)
    requires o == MergeFile(Text(rs), n, cap, true)
    ensures NonNegative(list) && o.file == Text(list)
    ensures forall x | Covers(list, x) :: Covers(rs, x) || Has(n, x)
    ensures o.Complete? ==> forall x | 0 <= x < n.total :: Covers(rs, x) || Has(n, x)
  {
    var seen := SeenBy(Text(rs), n, cap);
    if Chunk(Initial(n), seen.0, seen.1).None? {
      OneBufferRefused(Text(rs), n, cap);
      list := rs;
    } else {
      HonestIff(rs, n, cap);
      list := NewList(Text(rs), n, cap);
      NoFalseClaimIff(rs, n, cap);
    }
  }

  /** For every state file, new range and buffer size, unless the merge is refused: it is honest if and only if
      the new state file claims no byte that was neither recorded nor in the new range. */
  lemma HonestIff(rs: seq<Range>, n: Range, cap: nat)
    requires cap > 0 && NonNegative(rs) && Accepted(n, n.total)
    requires var seen := SeenBy(Text(rs), n, cap); Chunk(Initial(n), seen.0, seen.1).Some?
    ensures MergeFile(Text(rs), n, cap, true).file == Text(NewList(Text(rs), n, cap))
    ensures Honest(Text(rs), n, cap) <==> forall x | Covers(NewList(Text(rs), n, cap), x) :: !Missing(rs, n, x)
  {
    var seen := SeenBy(Text(rs), n, cap);
    NoFalseClaimIff(rs, n, cap);
    if Honest(Text(rs), n, cap) {
      var qs :| NonNegative(qs) && Text(rs) == Text(qs) && Backed(LinesOf(Initial(n), seen.0), n, seen.1, qs);
      TextInjective(rs, qs);
    }
  }

  /** Lists that speak of genuine bytes, and a segment received in full: so does what claims no more. */
  lemma ClaimsHold(content: map<int, Byte>, file: int -> Byte, seg: Segment, rs: seq<Range>, x: int)
    requires SegmentInv(seg, content, file) && seg.offset == seg.range.end + 1
    requires forall x | Covers(rs, x) :: Holds(content, file, x)
    requires Covers(rs, x) || Has(seg.range, x)
    ensures Holds(content, file, x)
  {
  }

  /** A segment recorded in full: the new list still speaks only of genuine bytes. */
  lemma RecordInv(s: Session, seg: Segment, file: int -> Byte, rs: seq<Range>, o: Outcome, list: seq<Range>)
    requires Records(rs, s.text, s.content, file)
    requires SegmentInv(seg, s.content, file) && seg.offset == seg.range.end + 1
    requires NonNegative(list) && o.file == Text(list)
    requires forall x | Covers(list, x) :: Covers(rs, x) || Has(seg.range, x)
    requires o.Complete? ==> forall x | 0 <= x < seg.range.total :: Covers(rs, x) || Has(seg.range, x)
    ensures var s' := Recorded(s, seg.range.total, o);
            && (exists rs :: Records(rs, s'.text, s.content, file))
            && (s'.done == s.done
                || (s'.done == Some(seg.range.total)
                    && forall x | 0 <= x < seg.range.total :: Holds(s.content, file, x)))
  {
    forall x | Covers(rs, x) || Has(seg.range, x) ensures Holds(s.content, file, x) {
      ClaimsHold(s.content, file, seg, rs, x);
    }
    var s' := Recorded(s, seg.range.total, o);
    if o.Complete? {
      forall x | 0 <= x < seg.range.total ensures Holds(s.content, file, x) {
        assert Covers(rs, x) || Has(seg.range, x);
      }
      assert Records([], s'.text, s.content, file);
    } else {
      assert Records(list, s'.text, s.content, file);
    }
  }

  lemma FinishInv(s: Session, e: Event, file: int -> Byte, cap: nat)
    requires cap > 0 && e.Finish? && Inv(s, file)
    requires Merges(s, e) ==> Honest(s.text, s.open[e.id].range, cap)
    ensures Inv(Next(s, e, cap), file)
  {
    if e.id in s.open {
      var seg := s.open[e.id];
      assert SegmentInv(seg, s.content, file);
      if seg.offset == seg.range.end + 1 {
        var rs :| Records(rs, s.text, s.content, file);
        var o := MergeFile(s.text, seg.range, cap, true);
        var list := MergeClaims(rs, seg.range, cap, o);
        RecordInv(s.(open := s.open - {e.id}), seg, file, rs, o, list);
      }
    }
  }

  lemma StepInv(s: Session, e: Event, file: int -> Byte, cap: nat)
    requires cap > 0 && Inv(s, file) && Genuine(s, e, file)
    requires Merges(s, e) ==> Honest(s.text, s.open[e.id].range, cap)
    ensures Inv(Next(s, e, cap), file)
  {
    match e
    case Start(_, _) =>
    case Flush(_, _) => FlushInv(s, e, file, cap);
    case Finish(_) => FinishInv(s, e, file, cap);
    case Abort(_) =>
  }

  /** Over every run of genuine segments with honest merges, however they interleave and whichever of them
      fail: a recorded byte is in the output file with its true value, and once the upload is declared
      finished the output file is the whole file. */
  lemma {:induction false} FinishedFileIsGenuine(s: Session, events: seq<Event>, file: int -> Byte, cap: nat)
    requires cap > 0 && Inv(s, file) && GenuineRun(s, events, file, cap) && HonestRun(s, events, cap)
    ensures Inv(Run(s, events, cap), file)
    decreases |events|
  {
    if events != [] {
      StepInv(s, events[0], file, cap);
      FinishedFileIsGenuine(Next(s, events[0], cap), events[1..], file, cap);
    }
  }

  lemma UploadIsGenuine(events: seq<Event>, file: int -> Byte, cap: nat) returns (rs: seq<Range>)
    requires cap > 0 && GenuineRun(FRESH, events, file, cap) && HonestRun(FRESH, events, cap)
    ensures var s := Run(FRESH, events, cap);
            && NonNegative(rs) && s.text == Text(rs)
            && (forall x | Covers(rs, x) :: x in s.content && s.content[x] == file(x))
            && (s.done.Some? ==>
                  forall x | 0 <= x < s.done.value :: x in s.content && s.content[x] == file(x))
  {
    assert Records([], "", map[], file);
    FinishedFileIsGenuine(FRESH, events, file, cap);
    var s := Run(FRESH, events, cap);
    rs :| Records(rs, s.text, s.content, file);
    assert forall x | Holds(s.content, file, x) :: x in s.content && s.content[x] == file(x);
  }
}
