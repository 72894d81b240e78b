/** What the loop over the state file really reads. A write moves the file offset on by its length, so
    that the reader skips that much text, and a number that a buffer cuts loses the digits before the
    cut. What is left of the file is exactly what one buffer with the rest of the text would give. */
module RangeFileSeen {
  import opened Sequences
  import opened Ranges
  import opened RangeText
  import opened RangeTextProofs
  import opened RangeFile
  import opened RangeFileProofs
  import opened Wrappers

  // ------------------------------------------------------ the loop, in place

  /** All that the loop prints, with `out` printed but not yet written, and the completion flag. */
  function Printed(read: Reader, text: string, offset: nat, out: string, s: State, cap: nat): Option<(string, bool)>
    requires offset <= |text| && cap > 0
    decreases |text| - offset
  {
    var chunk := TurnChunk(text, |text|, offset, cap);
    var next := offset + |chunk| + |out|;
    var t :- read(s, chunk, offset + |chunk| == |text|);
    if next >= |text| then Some((t.out, t.complete))
    else
      var rest :- Printed(read, text, next, t.out, Resume(t), cap);
      Some((t.out + rest.0, rest.1))
  }

  /** One turn on the file: what is read has not been written to, and what follows is still the text. */
  lemma MovingTurn(read: Reader, text: string, data: string, offset: nat, filePos: nat, out: string, s: State, cap: nat)
    returns (data1: string, chunk: string, next: nat, pos1: nat)
    requires cap > 0 && filePos <= offset <= |text| == |data| && data[offset..] == text[offset..]
    ensures chunk == TurnChunk(text, |text|, offset, cap) == TurnChunk(data, |text|, offset, cap)
    ensures next == offset + |chunk| + |out| && pos1 == filePos + |out|
    ensures data1 == Overlay(data, filePos, out) && data1[..pos1] == data[..filePos] + out
    ensures |data1| > |text| ==> |data1| == pos1
    ensures next < |text| ==> pos1 <= next && |data1| == |text| && data1[next..] == text[next..]
  {
    chunk := TurnChunk(text, |text|, offset, cap);
    data1, pos1 := Overlay(data, filePos, out), filePos + |out|;
    if offset < |text| {
      var n := Min(|text| - offset, cap);
      assert data[offset..offset + n] == data[offset..][..n] == text[offset..][..n] == text[offset..offset + n];
    }
    next := offset + |chunk| + |out|;
    if next < |text| {
      WriteBehind(text, data, offset, filePos, out, next);
    }
  }

  /** No write ever reaches text that is still to be read, on any text: the offset is moved on by
      everything that is written. */
  lemma {:induction false} InPlaceReads(read: Reader, text: string, data: string, offset: nat, filePos: nat,
                                        out: string, s: State, cap: nat)
    requires cap > 0 && filePos <= offset <= |text| == |data| && data[offset..] == text[offset..]
    ensures var o := Rewrite(read, data, |text|, offset, filePos, out, s, cap, true);
            match Printed(read, text, offset, out, s, cap)
            case None => o.Corrupt?
            case Some(c) => o == Left(data[..filePos] + out, c)
    decreases |text| - offset
  {
    var data1, chunk, next, pos1 := MovingTurn(read, text, data, offset, filePos, out, s, cap);
    var t := read(s, chunk, offset + |chunk| == |text|);
    if t.None? || next >= |text| {
      LastReads(read, text, data, offset, filePos, out, s, cap, data1, chunk, next, pos1, t);
    } else {
      RewriteMore(read, data, |text|, offset, filePos, out, s, cap, true, chunk, data1, next, pos1, t.value);
      InPlaceReads(read, text, data1, next, pos1, t.value.out, Resume(t.value), cap);
      PrintedMore(read, text, offset, out, s, cap, chunk, next, t.value, data[..filePos] + out);
    }
  }

  lemma LastReads(read: Reader, text: string, data: string, offset: nat, filePos: nat, out: string, s: State, cap: nat,
                  data1: string, chunk: string, next: nat, pos1: nat, t: Option<State>)
    requires cap > 0 && filePos <= offset <= |text| == |data|
    requires chunk == TurnChunk(text, |text|, offset, cap) == TurnChunk(data, |text|, offset, cap)
    requires next == offset + |chunk| + |out| && pos1 == filePos + |out|
             && t == read(s, chunk, offset + |chunk| == |text|)
    requires data1 == Overlay(data, filePos, out) && data1[..pos1] == data[..filePos] + out
    requires (|data1| > |text| ==> |data1| == pos1) && (t.None? || next >= |text|)
    ensures var o := Rewrite(read, data, |text|, offset, filePos, out, s, cap, true);
            match Printed(read, text, offset, out, s, cap)
            case None => o.Corrupt?
            case Some(c) => o == Left(data[..filePos] + out, c)
  {
    RewriteLast(read, data, |text|, offset, filePos, out, s, cap, true, chunk, data1, pos1, t);
    if t.Some? {
      CloseIs(data1, |text|, pos1, t.value.out, t.value.complete);
    }
  }

  lemma PrintedMore(read: Reader, text: string, offset: nat, out: string, s: State, cap: nat, chunk: string, next: nat,
                    t: State, head: string)
    requires offset <= |text| && cap > 0 && chunk == TurnChunk(text, |text|, offset, cap)
    requires next == offset + |chunk| + |out| < |text| && read(s, chunk, offset + |chunk| == |text|) == Some(t)
    ensures var all, rest := Printed(read, text, offset, out, s, cap), Printed(read, text, next, t.out, Resume(t), cap);
            && all.None? == rest.None?
            && (rest.Some? ==> Left(head, all.value) == Left(head + t.out, rest.value))
  {
    var rest := Printed(read, text, next, t.out, Resume(t), cap);
    if rest.Some? {
      LeftMore(head, t.out, rest.value);
    }
  }

  // ------------------------------------------------------- what is read

  /** Without the digits at its end. */
  function Trimmed(s: string): string {
    if s != [] && IsDigit(s[|s| - 1]) then Trimmed(s[..|s| - 1]) else s
  }

  /** The text that the reader takes in, and whether it is told of the end of the file. */
  function Seen(read: Reader, text: string, offset: nat, out: string, s: State, cap: nat): (string, bool)
    requires offset <= |text| && cap > 0
    decreases |text| - offset
  {
    var chunk := TurnChunk(text, |text|, offset, cap);
    var end := offset + |chunk|;
    var t := read(s, chunk, end == |text|);
    if t.None? || end + |out| >= |text| then (chunk, end == |text|)
    else
      var rest := Seen(read, text, end + |out|, t.value.out, Resume(t.value), cap);
      (Trimmed(chunk) + rest.0, rest.1)
  }

  lemma {:induction false} TrimmedFold(s: State, text: string)
    requires Zero(s) == s
    ensures Fold(s, Trimmed(text)).Some? <==> Fold(s, text).Some?
    ensures Fold(s, text).Some? ==>
              var u, t := Fold(s, Trimmed(text)).value, Fold(s, text).value;
              Zero(u) == u && Zero(t) == u && t.out == u.out
  {
    if text != [] && IsDigit(text[|text| - 1]) {
      TrimmedFold(s, text[..|text| - 1]);
    } else if text != [] && Fold(s, text).Some? {
      FoldZeroed(s, text);
    }
  }

  /** Reading on after `u` is reading from `u` with nothing printed. */
  lemma ChunkShift(u: State, text: string, last: bool)
    requires Zero(u) == u
    ensures Chunk(u, text, last) == WithOut(Chunk(Resume(u), text, last), u.out)
  {
    var r := Resume(u);
    assert r.(out := u.out + r.out) == u by {
      assert u.out + [] == u.out;
    }
    FoldOutShift(r, u.out, text);
    var t := Fold(r, text);
    if t.Some? && last {
      FinishOutShift(t.value, u.out);
    }
  }

  lemma ChunkAppend(s: State, a: string, b: string, last: bool, u: State)
    requires Zero(s) == s && Fold(s, a) == Some(u) && Zero(u) == u
    ensures Chunk(s, a + b, last) == Chunk(u, b, last)
  {
    FoldAppend(s, a, b);
  }

  /** A buffer cut anywhere, then the rest: the digits before the cut might as well not be there. */
  lemma CutRead(s: State, chunk: string, rest: string, last: bool)
    requires Zero(s) == s && s.out == []
    ensures Chunk(s, chunk, false).None? ==> Chunk(s, Trimmed(chunk) + rest, last) == None
    ensures Chunk(s, chunk, false).Some? ==>
              var t := Chunk(s, chunk, false).value;
              Chunk(s, Trimmed(chunk) + rest, last) == WithOut(Chunk(Resume(t), rest, last), t.out)
  {
    TrimmedFold(s, chunk);
    FoldAppend(s, Trimmed(chunk), rest);
    if Fold(s, chunk).Some? {
      var u := Fold(s, Trimmed(chunk)).value;
      ChunkAppend(s, Trimmed(chunk), rest, last, u);
      ChunkShift(u, rest, last);
    }
  }

  /** The last turn, and a turn before others, with the values they find named. */
  lemma LastSeen(read: Reader, text: string, offset: nat, out: string, s: State, cap: nat, chunk: string, end: nat)
    requires offset <= |text| && cap > 0 && chunk == TurnChunk(text, |text|, offset, cap) && end == offset + |chunk|
    requires read(s, chunk, end == |text|).None? || end + |out| >= |text|
    ensures Seen(read, text, offset, out, s, cap) == (chunk, end == |text|)
    ensures Printed(read, text, offset, out, s, cap)
         == (var t :- read(s, chunk, end == |text|); Some((t.out, t.complete)))
  {
  }

  lemma MoreSeen(read: Reader, text: string, offset: nat, out: string, s: State, cap: nat, chunk: string, next: nat,
                 t: State)
    requires offset <= |text| && cap > 0 && chunk == TurnChunk(text, |text|, offset, cap)
    requires next == offset + |chunk| + |out| < |text| && read(s, chunk, false) == Some(t)
    ensures var rest := Seen(read, text, next, t.out, Resume(t), cap);
            Seen(read, text, offset, out, s, cap) == (Trimmed(chunk) + rest.0, rest.1)
    ensures Printed(read, text, offset, out, s, cap)
         == (var rest :- Printed(read, text, next, t.out, Resume(t), cap); Some((t.out + rest.0, rest.1)))
  {
  }

  /** The loop prints what one buffer with the text it has seen would print. */
  lemma {:induction false} PrintedIsSeen(text: string, offset: nat, out: string, s: State, cap: nat)
    requires offset <= |text| && cap > 0 && Zero(s) == s && s.out == []
    ensures var seen := Seen(Chunk, text, offset, out, s, cap);
            Printed(Chunk, text, offset, out, s, cap)
            == (var c :- Chunk(s, seen.0, seen.1); Some((c.out, c.complete)))
    decreases |text| - offset
  {
    var chunk := TurnChunk(text, |text|, offset, cap);
    var end := offset + |chunk|;
    var next, t := end + |out|, Chunk(s, chunk, end == |text|);
    if t.None? || next >= |text| {
      LastSeen(Chunk, text, offset, out, s, cap, chunk, end);
    } else {
      var rest := Seen(Chunk, text, next, t.value.out, Resume(t.value), cap);
      MoreSeen(Chunk, text, offset, out, s, cap, chunk, next, t.value);
      PrintedIsSeen(text, next, t.value.out, Resume(t.value), cap);
      CutRead(s, chunk, rest.0, rest.1);
    }
  }

  /** The text and the verdict of a merge, as one buffer with the text seen gives them. */
  function SeenBy(text: string, n: Range, cap: nat): (string, bool)
    requires cap > 0
  {
    Seen(Chunk, text, 0, [], Initial(n), cap)
  }

  /** For every text, every new range and every buffer size: the file is left with what one buffer with
      the text seen prints, and the merge fails exactly if that buffer does. */
  lemma StateFileIsSeen(text: string, n: Range, cap: nat)
    requires cap > 0
    ensures var o, seen := MergeFile(text, n, cap, true), SeenBy(text, n, cap);
            match Chunk(Initial(n), seen.0, seen.1)
            case None => o.Corrupt?
            case Some(t) => o == if t.complete then Complete(t.out) else More(t.out)
  {
    var s0 := Initial(n);
    assert Zero(s0) == s0;
    InPlaceReads(Chunk, text, text, 0, 0, [], s0, cap);
    PrintedIsSeen(text, 0, [], s0, cap);
    var seen := SeenBy(text, n, cap);
    var c := Chunk(s0, seen.0, seen.1);
    if c.Some? {
      assert text[..0] + [] + c.value.out == c.value.out;
    }
  }
}
