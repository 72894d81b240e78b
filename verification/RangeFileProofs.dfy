/** Rewriting the state file in place gives the text of the merged list. */
module RangeFileProofs {
  import opened Sequences
  import opened Ranges
  import opened RangeText
  import opened RangeTextProofs
  import opened RangeFile
  import opened Wrappers

  // ------------------------------------------- cutting the input in buffers

  function WithOut(t: Option<State>, pre: string): Option<State> {
    if t.None? then None else Some(t.value.(out := pre + t.value.out))
  }

  /** What was printed before does not influence the reader. */
  lemma {:induction false} FoldOutShift(s: State, pre: string, text: string)
    ensures Fold(s.(out := pre + s.out), text) == WithOut(Fold(s, text), pre)
  {
    if text != [] {
      var front := text[..|text| - 1];
      FoldOutShift(s, pre, front);
      var t := Fold(s, front);
      if t.Some? {
        StepOutShift(t.value, pre, text[|text| - 1]);
      }
    }
  }

  lemma StepOutShift(s: State, pre: string, c: char)
    ensures Step(s.(out := pre + s.out), c) == WithOut(Step(s, c), pre)
  {
    var u := s.(out := pre + s.out);
    var gap := if s.found then [] else Line(s.range);
    Assoc(pre, s.out, Line(s.cur));
    Assoc(pre, s.out, gap);
    Assoc(pre, s.out + gap, Line(s.cur));
    assert TakeLine(u) == TakeLine(s).(out := pre + TakeLine(s).out);
  }

  lemma FoldZeroed(s: State, text: string)
    requires text != [] && !IsDigit(text[|text| - 1]) && Fold(s, text).Some?
    ensures Zero(Fold(s, text).value) == Fold(s, text).value
  {
  }

  /** A buffer read after `t` continues what a single buffer would have done. */
  lemma ChunkContinues(s: State, done: string, chunk: string)
    requires Fold(s, done).Some? && Zero(Fold(s, done).value) == Fold(s, done).value
    ensures var t := Fold(s, done).value;
            Fold(s, done + chunk) == WithOut(Chunk(Resume(t), chunk, false), t.out)
  {
    var t := Fold(s, done).value;
    FoldAppend(s, done, chunk);
    FoldOutShift(Resume(t), t.out, chunk);
    assert t.out + [] == t.out;
    assert Resume(t).(out := t.out + Resume(t).out) == t;
  }

  lemma FinishOutShift(s: State, pre: string)
    ensures Finish(s.(out := pre + s.out)) == WithOut(Finish(s), pre)
  {
    Assoc(pre, s.out, Line(s.range));
  }

  lemma LastChunkContinues(s: State, done: string, chunk: string)
    requires Fold(s, done).Some? && Zero(Fold(s, done).value) == Fold(s, done).value
    requires Fold(s, done + chunk).Some? && Finish(Fold(s, done + chunk).value).Some?
    ensures var t := Fold(s, done).value;
            Finish(Fold(s, done + chunk).value) == WithOut(Chunk(Resume(t), chunk, true), t.out)
  {
    var t := Fold(s, done).value;
    ChunkContinues(s, done, chunk);
    FinishOutShift(Chunk(Resume(t), chunk, false).value, t.out);
  }

  // ------------------------------------------------------- room to print

  const OFF_T_MAX: int := 0x7fff_ffff_ffff_ffff

  function Pow10(k: nat): nat {
    if k == 0 then 1 else 10 * Pow10(k - 1)
  }

  lemma {:induction false} DecLen(n: nat, k: nat)
    requires k >= 1 && n < Pow10(k)
    ensures |Dec(n)| <= k
  {
    if n >= 10 {
      assert Pow10(0) == 1;
      DecLen(n / 10, k - 1);
    }
  }

  lemma LineLen(r: Range, total: int)
    requires Accepted(r, total) && total <= OFF_T_MAX
    ensures |Line(r)| <= OFF_T_LEN * 3
  {
    assert Pow10(4) == 10_000;
    assert Pow10(8) == 10_000 * Pow10(4);
    assert Pow10(12) == 10_000 * Pow10(8);
    assert Pow10(16) == 10_000 * Pow10(12);
    assert Pow10(19) == 1_000 * Pow10(16);
    DecLen(r.start, 19);
    DecLen(r.end, 19);
    DecLen(r.total, 19);
  }

  lemma EmitStep(p: Pass, r: Range, total: int)
    requires Accepted(p.range, total) && Accepted(r, total) && total <= OFF_T_MAX
    ensures var q := MergeStep(p, r);
            && Accepted(q.range, total) && (p.found ==> q.found)
            && |Text(q.out)| <= |Text(p.out)| + |Line(r)| + (if q.found && !p.found then OFF_T_LEN * 3 else 0)
  {
    LineLen(p.range, total);
    EmitLength(p, r);
  }

  lemma EmitLength(p: Pass, r: Range)
    ensures var q := MergeStep(p, r);
            (p.found ==> q.found)
            && |Text(q.out)| <= |Text(p.out)| + |Line(r)| + (if q.found && !p.found then |Line(p.range)| else 0)
  {
    if r.end + 1 < p.range.start {
      TextPush(p.out, r);
    } else if r.start > p.range.end + 1 {
      InsertText(p, r);
    }
  }

  /** A pass prints at most the lines it read, plus one line for the new range. */
  lemma {:induction false} EmitBound(p: Pass, rs: seq<Range>, total: int)
    requires Accepted(p.range, total) && total <= OFF_T_MAX && forall r | r in rs :: Accepted(r, total)
    ensures var q := MergeFrom(p, rs);
            && Accepted(q.range, total) && (p.found ==> q.found)
            && |Text(q.out)| <= |Text(p.out)| + |Text(rs)| + (if q.found && !p.found then OFF_T_LEN * 3 else 0)
    decreases |rs|
  {
    if rs != [] {
      var r := rs[0];
      assert r in rs;
      TextCons(rs);
      EmitStep(p, r, total);
      EmitBound(MergeStep(p, r), rs[1..], total);
    }
  }

  /** Where a prefix of the text ends: after `i` whole lines, inside the next one. */
  lemma {:induction false} CutLine(rs: seq<Range>, p: nat) returns (i: nat, part: string)
    requires p <= |Text(rs)|
    ensures i <= |rs| && Text(rs)[..p] == Text(rs[..i]) + part && '\n' !in part
    ensures i == |rs| ==> part == []
    ensures i < |rs| ==> |part| < |Line(rs[i])|
  {
    if p == |Text(rs)| {
      i, part := |rs|, [];
      assert rs[..i] == rs;
    } else {
      var front, last := rs[..|rs| - 1], rs[|rs| - 1];
      assert Text(rs) == Text(front) + Line(last);
      if p < |Text(front)| {
        i, part := CutLine(front, p);
        assert front[..i] == rs[..i];
        assert Text(rs)[..p] == Text(front)[..p];
      } else {
        i, part := |rs| - 1, Line(last)[..p - |Text(front)|];
        LineBody(last);
        assert Text(rs)[..p] == Text(front) + part;
      }
    }
  }

  lemma LineBody(r: Range)
    ensures '\n' !in Line(r)[..|Line(r)| - 1]
  {
    DecChars(r.start);
    DecChars(r.end);
    DecChars(r.total);
    assert Line(r)[..|Line(r)| - 1] == Dec(r.start) + "-" + Dec(r.end) + "/" + Dec(r.total);
  }

  lemma {:induction false} DecChars(n: int)
    ensures '\n' !in Dec(n)
    decreases n < 0, if n < 0 then -n else n
  {
    if n < 0 {
      DecChars(-n);
    } else if n >= 10 {
      DecChars(n / 10);
    }
  }

  lemma {:induction false} NothingPrinted(s: State, part: string)
    requires '\n' !in part && Fold(s, part).Some?
    ensures Fold(s, part).value.out == s.out && Fold(s, part).value.found == s.found
    ensures Fold(s, part).value.range == s.range
  {
    if part != [] {
      NothingPrinted(s, part[..|part| - 1]);
    }
  }

  /** What the reader has printed after the first `p` characters of the state file. */
  lemma PrintedBy(rs: seq<Range>, n: Range, total: int, p: nat) returns (i: nat, part: string)
    requires Stored(rs, total) && Readable(rs, total) && Accepted(n, total) && total <= OFF_T_MAX
    requires p <= |Text(rs)|
    ensures i <= |rs| && Text(rs)[..p] == Text(rs[..i]) + part && |part| < OFF_T_LEN * 3
    ensures i < |rs| ==> |part| < |Line(rs[i])|
    ensures Fold(Initial(n), Text(rs)[..p]).Some?
    ensures var t, q := Fold(Initial(n), Text(rs)[..p]).value, PassAt(rs, n, i);
            t.out == Text(q.out) && t.found == q.found && t.range == q.range
  {
    i, part := CutLine(rs, p);
    var head := rs[..i];
    var s0, p0 := Initial(n), Pass([], n, false);
    assert forall r | r in rs :: Accepted(r, total);
    assert forall r | r in head :: r in rs;
    FoldText(s0, p0, rs);
    FoldText(s0, p0, head);
    FoldSome(s0, Text(rs), p);
    FoldAppend(s0, Text(head), part);
    NothingPrinted(Fold(s0, Text(head)).value, part);
    if i < |rs| {
      assert rs[i] in rs;
      LineLen(rs[i], total);
    }
  }

  lemma FoldSome(s: State, text: string, p: nat)
    requires p <= |text| && Fold(s, text).Some?
    ensures Fold(s, text[..p]).Some?
  {
    if Fold(s, text[..p]).None? {
      FoldFails(s, text, p);
    }
  }

  /** The output is never more than one line ahead of the input, whatever the prefix read. */
  lemma NeverAhead(rs: seq<Range>, n: Range, total: int, p: nat)
    requires Stored(rs, total) && Readable(rs, total) && Accepted(n, total) && total <= OFF_T_MAX
    requires p <= |Text(rs)|
    ensures Fold(Initial(n), Text(rs)[..p]).Some?
    ensures |Fold(Initial(n), Text(rs)[..p]).value.out| <= p + OFF_T_LEN * 3
  {
    var i, part := PrintedBy(rs, n, total, p);
    assert forall r | r in rs[..i] :: r in rs;
    assert |Text(rs)[..p]| == |Text(rs[..i])| + |part|;
    EmitBound(Pass([], n, false), rs[..i], total);
  }

  lemma {:induction false} MergeFromAppend(p: Pass, a: seq<Range>, b: seq<Range>)
    ensures MergeFrom(p, a + b) == MergeFrom(MergeFrom(p, a), b)
    decreases |a|
  {
    if a == [] {
      assert a + b == b;
    } else {
      assert (a + b)[1..] == a[1..] + b;
      MergeFromAppend(MergeStep(p, a[0]), a[1..], b);
    }
  }

  lemma LaterCut(rs: seq<Range>, i: nat, part: string, j: nat, part': string)
    requires i <= |rs| && j <= |rs| && (j < |rs| ==> |part'| < |Line(rs[j])|)
    requires |Text(rs[..i])| + |part| <= |Text(rs[..j])| + |part'|
    ensures i <= j
  {
    if j < i {
      var rest := rs[j + 1..i];
      assert rs[..i] == rs[..j] + [rs[j]] + rest;
      TextAppend(rs[..j] + [rs[j]], rest);
      TextPush(rs[..j], rs[j]);
    }
  }

  /** The pass after the first `i` lines of the file. */
  function PassAt(rs: seq<Range>, n: Range, i: nat): Pass
    requires i <= |rs|
  {
    MergeFrom(Pass([], n, false), rs[..i])
  }

  lemma ListGrowth(rs: seq<Range>, n: Range, total: int, i: nat, j: nat)
    requires Stored(rs, total) && Accepted(n, total) && total <= OFF_T_MAX && i <= j <= |rs|
    ensures var t, u := PassAt(rs, n, i), PassAt(rs, n, j);
            && (t.found ==> u.found) && |Line(u.range)| <= OFF_T_LEN * 3
            && |Text(u.out)| <= |Text(t.out)| + |Text(rs[..j])| - |Text(rs[..i])|
                                + (if u.found && !t.found then OFF_T_LEN * 3 else 0)
  {
    var head, more := rs[..i], rs[i..j];
    assert rs[..j] == head + more;
    assert forall r | r in head :: r in rs;
    assert forall r | r in more :: r in rs;
    MoreGrowth(head, more, n, total);
  }

  lemma MoreGrowth(head: seq<Range>, more: seq<Range>, n: Range, total: int)
    requires Accepted(n, total) && total <= OFF_T_MAX
    requires (forall r | r in head :: Accepted(r, total)) && forall r | r in more :: Accepted(r, total)
    ensures var p0 := Pass([], n, false);
            var t, u := MergeFrom(p0, head), MergeFrom(p0, head + more);
            && (t.found ==> u.found) && |Line(u.range)| <= OFF_T_LEN * 3
            && |Text(u.out)| <= |Text(t.out)| + |Text(head + more)| - |Text(head)|
                                + (if u.found && !t.found then OFF_T_LEN * 3 else 0)
  {
    var p0 := Pass([], n, false);
    TextAppend(head, more);
    MergeFromAppend(p0, head, more);
    EmitBound(p0, head, total);
    EmitBound(MergeFrom(p0, head), more, total);
    LineLen(MergeFrom(p0, head + more).range, total);
  }

  lemma OutGrowth(rs: seq<Range>, n: Range, total: int, p: nat, q: nat)
    requires Stored(rs, total) && Readable(rs, total) && Accepted(n, total) && total <= OFF_T_MAX
    requires p <= q <= |Text(rs)|
    ensures Fold(Initial(n), Text(rs)[..p]).Some? && Fold(Initial(n), Text(rs)[..q]).Some?
    ensures var t, u := Fold(Initial(n), Text(rs)[..p]).value, Fold(Initial(n), Text(rs)[..q]).value;
            && (t.found ==> u.found) && |Line(u.range)| <= OFF_T_LEN * 3
            && |u.out| <= |t.out| + (q - p) + OFF_T_LEN * 3 + (if u.found && !t.found then OFF_T_LEN * 3 else 0)
  {
    var i, part := PrintedBy(rs, n, total, p);
    var j, part' := PrintedBy(rs, n, total, q);
    assert |Text(rs)[..p]| == p && |Text(rs)[..q]| == q;
    LaterCut(rs, i, part, j, part');
    ListGrowth(rs, n, total, i, j);
  }

  /** A buffer of input never makes the reader print more than 120 characters beyond the length of
      that buffer: the line begun in the buffer before, and the new range. */
  lemma PrintedPerBuffer(rs: seq<Range>, n: Range, total: int, p: nat, q: nat)
    requires Stored(rs, total) && Readable(rs, total) && Accepted(n, total) && total <= OFF_T_MAX
    requires p <= q <= |Text(rs)| && (p > 0 ==> !IsDigit(Text(rs)[p - 1]))
    ensures Fold(Initial(n), Text(rs)[..p]).Some?
    ensures var t := Fold(Initial(n), Text(rs)[..p]).value;
            var c := Chunk(Resume(t), Text(rs)[p..q], q == |Text(rs)|);
            c.Some? && |c.value.out| <= q - p + 2 * OFF_T_LEN * 3
  {
    var text, s0 := Text(rs), Initial(n);
    OutGrowth(rs, n, total, p, q);
    StartsZeroed(n, text, p);
    assert text[..q] == text[..p] + text[p..q];
    ChunkContinues(s0, text[..p], text[p..q]);
    if q == |text| {
      assert text[..q] == text;
      FoldText(s0, Pass([], n, false), rs);
      LastChunkContinues(s0, text[..p], text[p..q]);
    }
  }

  lemma StartsZeroed(n: Range, text: string, p: nat)
    requires p <= |text| && (p > 0 ==> !IsDigit(text[p - 1]))
    requires Fold(Initial(n), text[..p]).Some?
    ensures var t := Fold(Initial(n), text[..p]).value; Zero(t) == t
  {
    if p > 0 {
      FoldZeroed(Initial(n), text[..p]);
    }
  }

  /** out_buf has room for whatever one full in_buf prints, for every merge buffer size that leaves room to read. */
  lemma OutputFits(rs: seq<Range>, n: Range, total: int, p: nat, q: nat, mergeBufferSize: nat)
    requires Stored(rs, total) && Readable(rs, total) && Accepted(n, total) && total <= OFF_T_MAX
    requires p <= q <= |Text(rs)| && (p > 0 ==> !IsDigit(Text(rs)[p - 1]))
    requires q - p <= InCap(mergeBufferSize)
    ensures Fold(Initial(n), Text(rs)[..p]).Some?
    ensures var t := Fold(Initial(n), Text(rs)[..p]).value;
            var c := Chunk(Resume(t), Text(rs)[p..q], q == |Text(rs)|);
            c.Some? && |c.value.out| <= OutCap(mergeBufferSize)
  {
    PrintedPerBuffer(rs, n, total, p, q);
  }

  // ------------------------------------------------------ the whole loop

  /** The same buffers read from an untouched file and printed to another one. */
  function Copy(read: Reader, text: string, offset: nat, s: State, cap: nat): Option<(string, bool)>
    requires offset <= |text| && cap > 0
    decreases |text| - offset
  {
    if |text| - offset <= cap then
      var t :- read(s, text[offset..], true);
      Some((t.out, t.complete))
    else
      var t :- read(s, text[offset..offset + cap], false);
      var rest :- Copy(read, text, offset + cap, Resume(t), cap);
      Some((t.out + rest.0, rest.1))
  }

  lemma CopyLast(read: Reader, text: string, offset: nat, s: State, cap: nat, t: State)
    requires offset <= |text| <= offset + cap && cap > 0 && read(s, text[offset..], true) == Some(t)
    ensures Copy(read, text, offset, s, cap) == Some((t.out, t.complete))
  {
  }

  lemma CopyMore(read: Reader, text: string, offset: nat, s: State, cap: nat, t: State, rest: (string, bool))
    requires offset + cap < |text| && cap > 0 && read(s, text[offset..offset + cap], false) == Some(t)
    requires Copy(read, text, offset + cap, Resume(t), cap) == Some(rest)
    ensures Copy(read, text, offset, s, cap) == Some((t.out + rest.0, rest.1))
  {
  }

  /** While input remains, the output is at most one buffer ahead of it; `printed` is the output
      before `offset`. */
  predicate Paced(read: Reader, text: string, offset: nat, s: State, printed: nat, cap: nat)
    requires offset <= |text| && cap > 0
    decreases |text| - offset
  {
    |text| - offset > cap ==>
      && printed <= offset + cap
      && var t := read(s, text[offset..offset + cap], false);
      && t.Some?
      && Paced(read, text, offset + cap, Resume(t.value), printed + |t.value.out|, cap)
  }

  lemma CloseIs(data: string, size: nat, filePos: nat, out: string, complete: bool)
    requires filePos <= |data| && size <= |data| && (|data| > size ==> |data| == filePos)
    ensures Close(data, size, filePos, out, complete)
         == if complete then Complete(data[..filePos] + out) else More(data[..filePos] + out)
  {
  }

  /** A write that ends before `next` leaves the text from there on alone. */
  lemma WriteBehind(text: string, data: string, offset: nat, filePos: nat, out: string, next: nat)
    requires |text| == |data| && filePos <= |data| && offset <= next <= |text|
    requires data[offset..] == text[offset..] && filePos + |out| <= next
    ensures var data1 := Overlay(data, filePos, out);
            |data1| == |data| && data1[next..] == text[next..] && data1[..filePos + |out|] == data[..filePos] + out
  {
    assert data[next..] == data[offset..][next - offset..];
    assert text[next..] == text[offset..][next - offset..];
  }

  /** What is left in the file: the part written before and what a copy would have printed from here on. */
  function Left(head: string, copy: (string, bool)): Outcome {
    if copy.1 then Complete(head + copy.0) else More(head + copy.0)
  }

  lemma LeftMore(head: string, out: string, rest: (string, bool))
    ensures head + out + rest.0 == head + (out + rest.0)
    ensures Left(head + out, rest) == Left(head, (out + rest.0, rest.1))
  {
    assert head + out + rest.0 == head + (out + rest.0);
  }

  lemma LastTurn(read: Reader, text: string, data: string, offset: nat, filePos: nat, out: string, s: State,
                 cap: nat, moves: bool, t: State)
    requires cap > 0 && offset <= |text| == |data| && filePos <= |data| && |text| - offset <= cap
    requires data[offset..] == text[offset..] && read(s, text[offset..], true) == Some(t)
    ensures Rewrite(read, data, |text|, offset, filePos, out, s, cap, moves)
         == Left(data[..filePos] + out, (t.out, t.complete))
  {
    var chunk := TurnChunk(data, |text|, offset, cap);
    assert chunk == text[offset..];
    var data1, filePos1 := Overlay(data, filePos, out), filePos + |out|;
    RewriteTurn(read, data, |text|, offset, filePos, out, s, cap, moves,
                chunk, data1, offset + |chunk| + Moved(moves, out), filePos1, Some(t));
    CloseIs(data1, |text|, filePos1, t.out, t.complete);
    assert data1[..filePos1] == data[..filePos] + out;
  }

  /** A turn that leaves input: what is written lies behind what was read. */
  lemma InnerTurn(read: Reader, text: string, data: string, offset: nat, filePos: nat, out: string, s: State,
                  cap: nat, moves: bool, t: State) returns (data1: string)
    requires cap > 0 && offset + cap < |text| == |data| && filePos <= |data| && data[offset..] == text[offset..]
    requires read(s, text[offset..offset + cap], false) == Some(t) && filePos + |out| <= offset + cap
    requires moves ==> out == []
    ensures |data1| == |data| && data1[offset + cap..] == text[offset + cap..]
    ensures data1[..filePos + |out|] == data[..filePos] + out
    ensures Rewrite(read, data, |text|, offset, filePos, out, s, cap, moves)
         == Rewrite(read, data1, |text|, offset + cap, filePos + |out|, t.out, Resume(t), cap, moves)
  {
    var next := offset + cap;
    var chunk := TurnChunk(data, |text|, offset, cap);
    assert chunk == data[offset..][..cap] == text[offset..][..cap] == text[offset..next];
    data1 := Overlay(data, filePos, out);
    WriteBehind(text, data, offset, filePos, out, next);
    RewriteTurn(read, data, |text|, offset, filePos, out, s, cap, moves, chunk, data1, next, filePos + |out|,
                Some(t));
  }

  lemma RestOfCopy(read: Reader, text: string, offset: nat, s: State, cap: nat, t: State) returns (rest: (string, bool))
    requires offset + cap < |text| && cap > 0 && read(s, text[offset..offset + cap], false) == Some(t)
    requires Copy(read, text, offset, s, cap).Some?
    ensures Copy(read, text, offset + cap, Resume(t), cap) == Some(rest)
    ensures Copy(read, text, offset, s, cap) == Some((t.out + rest.0, rest.1))
  {
    rest := Copy(read, text, offset + cap, Resume(t), cap).value;
  }

  lemma PacedTurn(read: Reader, text: string, offset: nat, s: State, printed: nat, cap: nat, t: State)
    requires cap > 0 && offset + cap < |text| && Paced(read, text, offset, s, printed, cap)
    requires read(s, text[offset..offset + cap], false) == Some(t)
    ensures printed <= offset + cap && Paced(read, text, offset + cap, Resume(t), printed + |t.out|, cap)
  {
  }

  /** No buffer before the last two prints anything: then nothing is written while there is more to
      read than the buffer at hand. */
  predicate Silent(read: Reader, text: string, offset: nat, s: State, cap: nat)
    requires offset <= |text| && cap > 0
    decreases |text| - offset
  {
    |text| - offset > 2 * cap ==>
      var t := read(s, text[offset..offset + cap], false);
      t.Some? && t.value.out == [] && Silent(read, text, offset + cap, Resume(t.value), cap)
  }

  /** What a turn needs when writing moves the offset. */
  predicate Unmoved(read: Reader, text: string, offset: nat, out: string, s: State, cap: nat, moves: bool)
    requires offset <= |text| && cap > 0
  {
    moves ==> |text| - offset <= cap || (out == [] && Silent(read, text, offset, s, cap))
  }

  lemma UnmovedTurn(read: Reader, text: string, offset: nat, out: string, s: State, cap: nat, moves: bool, t: State)
    requires cap > 0 && offset + cap < |text| && Unmoved(read, text, offset, out, s, cap, moves)
    requires read(s, text[offset..offset + cap], false) == Some(t)
    ensures moves ==> out == []
    ensures Unmoved(read, text, offset + cap, t.out, Resume(t), cap, moves)
  {
  }

  lemma LastIsCopy(read: Reader, text: string, data: string, offset: nat, filePos: nat, out: string, s: State,
                   cap: nat, moves: bool)
    requires cap > 0 && offset <= |text| == |data| && filePos <= |data| && |text| - offset <= cap
    requires data[offset..] == text[offset..] && Copy(read, text, offset, s, cap).Some?
    ensures Rewrite(read, data, |text|, offset, filePos, out, s, cap, moves)
         == Left(data[..filePos] + out, Copy(read, text, offset, s, cap).value)
  {
    var t := read(s, text[offset..], true).value;
    LastTurn(read, text, data, offset, filePos, out, s, cap, moves, t);
    CopyLast(read, text, offset, s, cap, t);
  }

  /** A turn that leaves input, with all that the next one needs. */
  lemma NextTurn(read: Reader, text: string, data: string, offset: nat, filePos: nat, out: string, s: State,
                 cap: nat, moves: bool, next: nat, pos1: nat)
    returns (t: State, data1: string, rest: (string, bool))
    requires cap > 0 && next == offset + cap < |text| == |data| && filePos <= |data| && data[offset..] == text[offset..]
    requires Copy(read, text, offset, s, cap).Some? && Paced(read, text, offset, s, filePos + |out|, cap)
    requires Unmoved(read, text, offset, out, s, cap, moves) && pos1 == filePos + |out|
    ensures |data1| == |data| && data1[next..] == text[next..]
    ensures pos1 <= |data1| && data1[..pos1] == data[..filePos] + out
    ensures Copy(read, text, next, Resume(t), cap) == Some(rest)
    ensures Copy(read, text, offset, s, cap) == Some((t.out + rest.0, rest.1))
    ensures Paced(read, text, next, Resume(t), pos1 + |t.out|, cap)
    ensures Unmoved(read, text, next, t.out, Resume(t), cap, moves)
    ensures Rewrite(read, data, |text|, offset, filePos, out, s, cap, moves)
         == Rewrite(read, data1, |text|, next, pos1, t.out, Resume(t), cap, moves)
  {
    t := read(s, text[offset..next], false).value;
    PacedTurn(read, text, offset, s, pos1, cap, t);
    UnmovedTurn(read, text, offset, out, s, cap, moves, t);
    data1 := InnerTurn(read, text, data, offset, filePos, out, s, cap, moves, t);
    rest := RestOfCopy(read, text, offset, s, cap, t);
  }

  /** Rewriting in place is as good as copying: no write reaches input that was not read yet. As a
      write moves the offset on, nothing may be written before the last buffer is read. */
  lemma {:induction false} InPlaceIsCopy(read: Reader, text: string, data: string, offset: nat, filePos: nat,
                                         out: string, s: State, cap: nat, moves: bool)
    requires cap > 0 && offset <= |text| == |data| && filePos <= |data| && data[offset..] == text[offset..]
    requires Copy(read, text, offset, s, cap).Some? && Paced(read, text, offset, s, filePos + |out|, cap)
    requires Unmoved(read, text, offset, out, s, cap, moves)
    ensures Rewrite(read, data, |text|, offset, filePos, out, s, cap, moves)
         == Left(data[..filePos] + out, Copy(read, text, offset, s, cap).value)
    decreases |text| - offset
  {
    if |text| - offset <= cap {
      LastIsCopy(read, text, data, offset, filePos, out, s, cap, moves);
    } else {
      var next, pos1 := offset + cap, filePos + |out|;
      var t, data1, rest := NextTurn(read, text, data, offset, filePos, out, s, cap, moves, next, pos1);
      InPlaceIsCopy(read, text, data1, next, pos1, t.out, Resume(t), cap, moves);
      LeftMore(data[..filePos] + out, t.out, rest);
    }
  }

  // ------------------------------------------------------ the whole loop

  /** Cut in buffers of `cap` characters from `offset` on, the text is never cut behind a digit. */
  predicate CutsAtDelimiters(text: string, cap: nat, offset: nat)
    requires cap > 0
    decreases |text| - offset
  {
    offset + cap >= |text| || (!IsDigit(text[offset + cap - 1]) && CutsAtDelimiters(text, cap, offset + cap))
  }

  /** `at(p)` is where a single buffer would stand behind `p` characters. */
  type Course = nat -> State

  /** A buffer [p, q) takes the reader from `at(p)` to `at(q)`. */
  predicate Follows(read: Reader, text: string, at: Course, p: nat, q: nat)
    requires p <= q <= |text|
  {
    var c := read(Resume(at(p)), text[p..q], false);
    c.Some? && at(q).out == at(p).out + c.value.out && Resume(c.value) == Resume(at(q))
  }

  ghost predicate FollowsCuts(read: Reader, text: string, at: Course, cap: nat)
    requires cap > 0
  {
    forall p: nat | p + cap < |text| && Clean(text, p) && !IsDigit(text[p + cap - 1]) ::
      Follows(read, text, at, p, p + cap)
  }

  /** Nothing before p, or no digit right before it. */
  predicate Clean(text: string, p: nat)
  {
    p <= |text| && (p > 0 ==> !IsDigit(text[p - 1]))
  }

  ghost predicate EndsIn(read: Reader, text: string, at: Course, whole: State) {
    forall p: nat | Clean(text, p) ::
      var c := read(Resume(at(p)), text[p..], true);
      c.Some? && whole.out == at(p).out + c.value.out && whole.complete == c.value.complete
  }

  lemma NextPart(read: Reader, text: string, at: Course, offset: nat, cap: nat) returns (t: State)
    requires offset + cap < |text| && cap > 0 && Clean(text, offset) && !IsDigit(text[offset + cap - 1])
    requires FollowsCuts(read, text, at, cap)
    ensures read(Resume(at(offset)), text[offset..offset + cap], false) == Some(t)
    ensures at(offset + cap).out == at(offset).out + t.out && Resume(t) == Resume(at(offset + cap))
  {
    assert Follows(read, text, at, offset, offset + cap);
    t := read(Resume(at(offset)), text[offset..offset + cap], false).value;
  }

  lemma LastPart(read: Reader, text: string, at: Course, whole: State, offset: nat) returns (t: State)
    requires Clean(text, offset) && EndsIn(read, text, at, whole)
    ensures read(Resume(at(offset)), text[offset..], true) == Some(t)
    ensures whole.out == at(offset).out + t.out && whole.complete == t.complete
  {
    t := read(Resume(at(offset)), text[offset..], true).value;
  }

  /** Read in buffers, the text gives what it gives read at once. */
  lemma {:induction false} CopyIsWhole(read: Reader, text: string, at: Course, whole: State, offset: nat, cap: nat)
    requires cap > 0 && Clean(text, offset) && CutsAtDelimiters(text, cap, offset)
    requires FollowsCuts(read, text, at, cap) && EndsIn(read, text, at, whole)
    ensures var c := Copy(read, text, offset, Resume(at(offset)), cap);
            c.Some? && at(offset).out + c.value.0 == whole.out && c.value.1 == whole.complete
    decreases |text| - offset
  {
    var s := Resume(at(offset));
    if |text| - offset > cap {
      var t := NextPart(read, text, at, offset, cap);
      CopyIsWhole(read, text, at, whole, offset + cap, cap);
      var rest := Copy(read, text, offset + cap, Resume(t), cap).value;
      CopyMore(read, text, offset, s, cap, t, rest);
      LeftMore(at(offset).out, t.out, rest);
    } else {
      var t := LastPart(read, text, at, whole, offset);
      CopyLast(read, text, offset, s, cap, t);
    }
  }

  lemma {:induction false} CopyIsPaced(read: Reader, text: string, at: Course, offset: nat, cap: nat)
    requires cap > 0 && Clean(text, offset) && CutsAtDelimiters(text, cap, offset)
    requires FollowsCuts(read, text, at, cap) && forall p: nat | p <= |text| :: |at(p).out| <= p + cap
    ensures Paced(read, text, offset, Resume(at(offset)), |at(offset).out|, cap)
    decreases |text| - offset
  {
    if |text| - offset > cap {
      var next := offset + cap;
      assert Follows(read, text, at, offset, next);
      CopyIsPaced(read, text, at, next, cap);
    }
  }

  function StateAt(n: Range, text: string, p: nat): State {
    if p <= |text| && Fold(Initial(n), text[..p]).Some? then Fold(Initial(n), text[..p]).value else Initial(n)
  }

  function CourseOf(n: Range, text: string): Course {
    (p: nat) => StateAt(n, text, p)
  }

  lemma StateAtClean(n: Range, text: string, p: nat)
    requires Clean(text, p) && Fold(Initial(n), text).Some?
    ensures Fold(Initial(n), text[..p]) == Some(StateAt(n, text, p))
    ensures Zero(StateAt(n, text, p)) == StateAt(n, text, p)
  {
    FoldSome(Initial(n), text, p);
    StartsZeroed(n, text, p);
  }

  lemma ChunkReaches(s: State, text: string, p: nat, q: nat, t: State, v: State)
    requires p <= q <= |text| && Fold(s, text[..p]) == Some(t) && Zero(t) == t && Fold(s, text[..q]) == Some(v)
    ensures var c := Chunk(Resume(t), text[p..q], false);
            c.Some? && v.out == t.out + c.value.out && Resume(c.value) == Resume(v)
  {
    assert text[..q] == text[..p] + text[p..q];
    ChunkContinues(s, text[..p], text[p..q]);
  }

  lemma ReaderFollows(n: Range, text: string, p: nat, q: nat)
    requires p <= q <= |text| && Clean(text, p) && Clean(text, q) && Fold(Initial(n), text).Some?
    ensures Follows(Chunk, text, CourseOf(n, text), p, q)
  {
    StateAtClean(n, text, p);
    StateAtClean(n, text, q);
    ChunkReaches(Initial(n), text, p, q, StateAt(n, text, p), StateAt(n, text, q));
  }

  lemma ReaderEnds(n: Range, text: string, p: nat)
    requires Clean(text, p) && Chunk(Initial(n), text, true).Some?
    ensures var c := Chunk(Resume(StateAt(n, text, p)), text[p..], true);
            var whole := Chunk(Initial(n), text, true).value;
            c.Some? && whole.out == StateAt(n, text, p).out + c.value.out && whole.complete == c.value.complete
  {
    assert Zero(Initial(n)) == Initial(n);
    StateAtClean(n, text, p);
    assert text == text[..p] + text[p..];
    LastChunkContinues(Initial(n), text[..p], text[p..]);
  }

  lemma ReaderCourse(n: Range, text: string, cap: nat)
    requires Chunk(Initial(n), text, true).Some? && cap > 0
    ensures FollowsCuts(Chunk, text, CourseOf(n, text), cap)
    ensures EndsIn(Chunk, text, CourseOf(n, text), Chunk(Initial(n), text, true).value)
  {
    assert Zero(Initial(n)) == Initial(n);
    forall p: nat | p + cap < |text| && Clean(text, p) && !IsDigit(text[p + cap - 1])
      ensures Follows(Chunk, text, CourseOf(n, text), p, p + cap)
    {
      ReaderFollows(n, text, p, p + cap);
    }
    forall p: nat | Clean(text, p)
      ensures var c := Chunk(Resume(StateAt(n, text, p)), text[p..], true);
              var whole := Chunk(Initial(n), text, true).value;
              c.Some? && whole.out == StateAt(n, text, p).out + c.value.out && whole.complete == c.value.complete
    {
      ReaderEnds(n, text, p);
    }
  }

  /** The text of the merged list, and the verdict on it. */
  function MergedFile(rs: seq<Range>, n: Range): Outcome {
    var m := Merge(rs, n);
    if m.complete then Complete(Text(m.ranges)) else More(Text(m.ranges))
  }

  /** The state file after a merge is the text of the merged list, provided no buffer boundary falls
      behind a digit. If writing left the file offset alone this would hold for files of any length and
      buffers of at least one line; as it moves the offset, it holds for files of any length of which no
      buffer before the last two prints anything. */
  lemma StateFileMerged(rs: seq<Range>, n: Range, total: int, cap: nat, moves: bool)
    requires Stored(rs, total) && Accepted(n, total) && total <= OFF_T_MAX && cap > 0
    requires forall r | r in rs :: r.start != r.end
    requires CutsAtDelimiters(Text(rs), cap, 0)
    requires if moves then Silent(Chunk, Text(rs), 0, Initial(n), cap) else cap >= OFF_T_LEN * 3
    ensures MergeFile(Text(rs), n, cap, moves) == MergedFile(rs, n)
  {
    var text, s0 := Text(rs), Initial(n);
    var at := CourseOf(n, text);
    MergeText(rs, n, total);
    StoredReadable(rs, total);
    ReaderCourse(n, text, cap);
    StateAtStart(n, text);
    CopyIsWhole(Chunk, text, at, Chunk(s0, text, true).value, 0, cap);
    ReadPaced(rs, n, total, cap, moves);
    InPlaceIsCopy(Chunk, text, text, 0, 0, [], s0, cap, moves);
    EmptyPrefix(text, Copy(Chunk, text, 0, s0, cap).value.0);
  }

  lemma ReadPaced(rs: seq<Range>, n: Range, total: int, cap: nat, moves: bool)
    requires Stored(rs, total) && Readable(rs, total) && Accepted(n, total) && total <= OFF_T_MAX && cap > 0
    requires CutsAtDelimiters(Text(rs), cap, 0) && FollowsCuts(Chunk, Text(rs), CourseOf(n, Text(rs)), cap)
    requires if moves then Silent(Chunk, Text(rs), 0, Initial(n), cap) else cap >= OFF_T_LEN * 3
    ensures Paced(Chunk, Text(rs), 0, Initial(n), 0, cap)
  {
    var text := Text(rs);
    StateAtStart(n, text);
    if moves {
      SilentIsPaced(n, text, 0, cap);
    } else {
      forall p: nat | p <= |text| ensures |CourseOf(n, text)(p).out| <= p + cap {
        NeverAhead(rs, n, total, p);
      }
      CopyIsPaced(Chunk, text, CourseOf(n, text), 0, cap);
    }
  }

  /** What prints nothing is never ahead. */
  lemma {:induction false} SilentIsPaced(n: Range, text: string, offset: nat, cap: nat)
    requires cap > 0 && Clean(text, offset) && CutsAtDelimiters(text, cap, offset)
    requires FollowsCuts(Chunk, text, CourseOf(n, text), cap)
    requires Silent(Chunk, text, offset, Resume(StateAt(n, text, offset)), cap)
    ensures Paced(Chunk, text, offset, Resume(StateAt(n, text, offset)), 0, cap)
    decreases |text| - offset
  {
    if |text| - offset > cap {
      var next := offset + cap;
      var t := NextPart(Chunk, text, CourseOf(n, text), offset, cap);
      var s := Resume(StateAt(n, text, offset));
      SilentMore(Chunk, text, offset, s, cap, next, t);
      if |text| - offset > 2 * cap {
        SilentIsPaced(n, text, next, cap);
      }
      PacedMore(Chunk, text, offset, s, cap, next, t);
    }
  }

  lemma SilentMore(read: Reader, text: string, offset: nat, s: State, cap: nat, next: nat, t: State)
    requires cap > 0 && next == offset + cap < |text| && read(s, text[offset..next], false) == Some(t)
    requires Silent(read, text, offset, s, cap)
    ensures |text| - offset > 2 * cap ==> t.out == [] && Silent(read, text, next, Resume(t), cap)
  {
  }

  lemma PacedMore(read: Reader, text: string, offset: nat, s: State, cap: nat, next: nat, t: State)
    requires cap > 0 && next == offset + cap < |text| && read(s, text[offset..next], false) == Some(t)
    requires |text| - offset > 2 * cap ==> t.out == [] && Paced(read, text, next, Resume(t), 0, cap)
    ensures Paced(read, text, offset, s, 0, cap)
  {
  }

  lemma StateAtStart(n: Range, text: string)
    ensures StateAt(n, text, 0) == Initial(n) == Resume(Initial(n))
  {
    assert text[..0] == [];
  }

  lemma EmptyPrefix(text: string, out: string)
    ensures text[..0] + [] + out == out == [] + out
  {
  }
}
