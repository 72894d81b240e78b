/** When the loop reads the whole state file, and what is lost when it does not. */
module RangeFileSkips {
  import opened Sequences
  import opened Ranges
  import opened RangeText
  import opened RangeTextProofs
  import opened RangeFile
  import opened RangeFileProofs
  import opened RangeFileSeen
  import opened Wrappers

  // ------------------------------------------------- all of it is read

  lemma {:induction false} TrimmedPrefix(s: string)
    ensures |Trimmed(s)| <= |s|
    ensures |Trimmed(s)| == |s| <==> s == [] || !IsDigit(s[|s| - 1])
    ensures |Trimmed(s)| == |s| ==> Trimmed(s) == s
  {
    if s != [] && IsDigit(s[|s| - 1]) {
      TrimmedPrefix(s[..|s| - 1]);
    }
  }

  lemma {:induction false} SeenLength(read: Reader, text: string, offset: nat, out: string, s: State, cap: nat)
    requires offset <= |text| && cap > 0
    ensures |Seen(read, text, offset, out, s, cap).0| <= |text| - offset
    decreases |text| - offset
  {
    var chunk := TurnChunk(text, |text|, offset, cap);
    var end := offset + |chunk|;
    var next, t := end + |out|, read(s, chunk, end == |text|);
    if t.None? || next >= |text| {
      LastSeen(read, text, offset, out, s, cap, chunk, end);
    } else {
      MoreSeen(read, text, offset, out, s, cap, chunk, next, t.value);
      SeenLength(read, text, next, t.value.out, Resume(t.value), cap);
      TrimmedPrefix(chunk);
    }
  }

  /** No number is cut and nothing is written while there is more to read than the buffer at hand. */
  predicate Undisturbed(read: Reader, text: string, offset: nat, out: string, s: State, cap: nat)
    requires offset <= |text| && cap > 0
    decreases |text| - offset
  {
    |text| - offset > cap ==>
      && out == [] && !IsDigit(text[offset + cap - 1])
      && var t := read(s, text[offset..offset + cap], false);
      && t.Some? && Undisturbed(read, text, offset + cap, t.value.out, Resume(t.value), cap)
  }

  lemma UndisturbedTurn(read: Reader, text: string, offset: nat, out: string, s: State, cap: nat, next: nat, t: State)
    requires cap > 0 && next == offset + cap < |text| && read(s, text[offset..next], false) == Some(t)
    ensures Undisturbed(read, text, offset, out, s, cap)
            <==> out == [] && !IsDigit(text[next - 1]) && Undisturbed(read, text, next, t.out, Resume(t), cap)
  {
  }

  /** Exactly then the whole text is read, to its end. */
  lemma {:induction false} SeenAll(read: Reader, text: string, offset: nat, out: string, s: State, cap: nat)
    requires offset <= |text| && cap > 0
    ensures Seen(read, text, offset, out, s, cap) == (text[offset..], true)
            <==> Undisturbed(read, text, offset, out, s, cap)
    decreases |text| - offset
  {
    var chunk := TurnChunk(text, |text|, offset, cap);
    var end := offset + |chunk|;
    var next, t := end + |out|, read(s, chunk, end == |text|);
    if |text| - offset <= cap {
      assert chunk == text[offset..];
      LastSeen(read, text, offset, out, s, cap, chunk, end);
    } else if t.None? || next >= |text| {
      LastSeen(read, text, offset, out, s, cap, chunk, end);
    } else {
      if out == [] {
        SeenAll(read, text, end, t.value.out, Resume(t.value), cap);
      }
      SeenAllTurn(read, text, offset, out, s, cap, chunk, end, next, t.value);
    }
  }

  lemma SeenAllTurn(read: Reader, text: string, offset: nat, out: string, s: State, cap: nat, chunk: string, end: nat,
                    next: nat, t: State)
    requires cap > 0 && end == offset + cap && next == end + |out| < |text|
    requires chunk == text[offset..end] && read(s, chunk, false) == Some(t)
    requires out == [] ==> (Seen(read, text, end, t.out, Resume(t), cap) == (text[end..], true)
                            <==> Undisturbed(read, text, end, t.out, Resume(t), cap))
    ensures Seen(read, text, offset, out, s, cap) == (text[offset..], true)
            <==> Undisturbed(read, text, offset, out, s, cap)
  {
    var rest := Seen(read, text, next, t.out, Resume(t), cap);
    MoreSeen(read, text, offset, out, s, cap, chunk, next, t);
    UndisturbedTurn(read, text, offset, out, s, cap, end, t);
    SeenLength(read, text, next, t.out, Resume(t), cap);
    WholeTurn(text, offset, end, chunk, out, next, rest, Undisturbed(read, text, end, t.out, Resume(t), cap));
  }

  /** `whole` says that what follows this buffer is read whole. */
  lemma WholeTurn(text: string, offset: nat, end: nat, chunk: string, out: string, next: nat, rest: (string, bool),
                  whole: bool)
    requires offset < end && next == end + |out| <= |text| && chunk == text[offset..end] && |rest.0| <= |text| - next
    requires out == [] ==> (rest == (text[end..], true) <==> whole)
    ensures (Trimmed(chunk) + rest.0, rest.1) == (text[offset..], true)
            <==> out == [] && !IsDigit(text[end - 1]) && whole
  {
    assert chunk[|chunk| - 1] == text[end - 1];
    SeenParts(text, offset, chunk, next, rest.0);
  }

  /** The whole of a text is made of a buffer and what follows only if neither lacks anything. */
  lemma SeenParts(text: string, offset: nat, chunk: string, next: nat, rest: string)
    requires offset + |chunk| <= next <= |text| && chunk == text[offset..offset + |chunk|] && chunk != []
    requires |rest| <= |text| - next
    ensures Trimmed(chunk) + rest == text[offset..]
            <==> !IsDigit(chunk[|chunk| - 1]) && next == offset + |chunk| && rest == text[next..]
  {
    TrimmedPrefix(chunk);
    var end := offset + |chunk|;
    assert text[offset..] == chunk + text[end..];
    if Trimmed(chunk) + rest == text[offset..] {
      assert |Trimmed(chunk)| + |rest| == |text| - offset;
      assert rest == text[offset..][|chunk|..];
    }
  }

  lemma SilentIff(read: Reader, text: string, offset: nat, s: State, cap: nat, next: nat, t: State)
    requires cap > 0 && next == offset + cap < |text| && read(s, text[offset..next], false) == Some(t)
    ensures Silent(read, text, offset, s, cap)
            <==> (|text| - next > cap ==> t.out == []) && Silent(read, text, next, Resume(t), cap)
  {
  }

  lemma SilentStep(read: Reader, text: string, offset: nat, out: string, s: State, cap: nat, next: nat, t: State)
    requires cap > 0 && next == offset + cap < |text| && read(s, text[offset..next], false) == Some(t)
    requires Undisturbed(read, text, next, t.out, Resume(t), cap)
             <==> && CutsAtDelimiters(text, cap, next) && (|text| - next > cap ==> t.out == [])
                  && Silent(read, text, next, Resume(t), cap)
    ensures Undisturbed(read, text, offset, out, s, cap)
            <==> && CutsAtDelimiters(text, cap, offset) && (|text| - offset > cap ==> out == [])
                 && Silent(read, text, offset, s, cap)
  {
    UndisturbedTurn(read, text, offset, out, s, cap, next, t);
    SilentIff(read, text, offset, s, cap, next, t);
  }

  /** A buffer between two clean cuts takes the reader from where a single buffer would stand to where it
      would stand. */
  lemma CleanBuffer(n: Range, text: string, p: nat, q: nat) returns (t: State)
    requires p <= q <= |text| && Clean(text, p) && Clean(text, q) && Chunk(Initial(n), text, true).Some?
    ensures Chunk(Resume(StateAt(n, text, p)), text[p..q], false) == Some(t)
    ensures Resume(t) == Resume(StateAt(n, text, q))
  {
    assert Zero(Initial(n)) == Initial(n);
    ReaderFollows(n, text, p, q);
    t := Chunk(Resume(StateAt(n, text, p)), text[p..q], false).value;
  }

  /** For a file the reader understands: that no number is cut, and that no buffer before the last two
      prints. */
  lemma {:induction false} UndisturbedIsSilent(n: Range, text: string, offset: nat, out: string, s: State, cap: nat)
    requires cap > 0 && Clean(text, offset) && Chunk(Initial(n), text, true).Some?
    requires s == Resume(StateAt(n, text, offset))
    ensures Undisturbed(Chunk, text, offset, out, s, cap)
            <==> && CutsAtDelimiters(text, cap, offset) && (|text| - offset > cap ==> out == [])
                 && Silent(Chunk, text, offset, s, cap)
    decreases |text| - offset
  {
    if |text| - offset > cap && !IsDigit(text[offset + cap - 1]) {
      var next := offset + cap;
      var t := CleanBuffer(n, text, offset, next);
      UndisturbedIsSilent(n, text, next, t.out, Resume(t), cap);
      SilentStep(Chunk, text, offset, out, s, cap, next, t);
    }
  }

  /** The whole state file is read, and only then, if no number is cut and no buffer before the last two
      prints. */
  lemma ReadWhole(n: Range, text: string, cap: nat)
    requires cap > 0 && Chunk(Initial(n), text, true).Some?
    ensures SeenBy(text, n, cap) == (text, true)
            <==> CutsAtDelimiters(text, cap, 0) && Silent(Chunk, text, 0, Initial(n), cap)
  {
    assert text[0..] == text;
    StateAtStart(n, text);
    SeenAll(Chunk, text, 0, [], Initial(n), cap);
    UndisturbedIsSilent(n, text, 0, [], Initial(n), cap);
  }

  // ----------------------------------------------- a skip to the end

  /** The first write that happens while there is more to read than the buffer at hand moves the offset
      to the end of the file or behind it. */
  predicate SkipsToEnd(read: Reader, text: string, offset: nat, out: string, s: State, cap: nat)
    requires offset <= |text| && cap > 0
    decreases |text| - offset
  {
    && |text| - offset > cap
    && if out != [] then offset + cap + |out| >= |text|
       else
         var t := read(s, text[offset..offset + cap], false);
         t.Some? && SkipsToEnd(read, text, offset + cap, t.value.out, Resume(t.value), cap)
  }

  lemma SkipTurn(read: Reader, text: string, offset: nat, s: State, cap: nat, next: nat, t: State)
    requires cap > 0 && next == offset + cap < |text| && read(s, text[offset..next], false) == Some(t)
    ensures SkipsToEnd(read, text, offset, [], s, cap) ==> SkipsToEnd(read, text, next, t.out, Resume(t), cap)
  {
  }

  /** Then a part of the text is read from its beginning, and the end is not noticed. */
  lemma {:induction false} SeenBeforeSkip(read: Reader, text: string, offset: nat, out: string, s: State, cap: nat)
    returns (p: nat)
    requires offset <= |text| && cap > 0 && CutsAtDelimiters(text, cap, offset)
    requires SkipsToEnd(read, text, offset, out, s, cap)
    ensures offset < p < |text| && Seen(read, text, offset, out, s, cap) == (text[offset..p], false)
    decreases |text| - offset
  {
    var end := offset + cap;
    var chunk := text[offset..end];
    if out != [] {
      p := end;
      LastSeen(read, text, offset, out, s, cap, chunk, end);
    } else {
      var t := read(s, chunk, false).value;
      SkipTurn(read, text, offset, s, cap, end, t);
      p := SeenBeforeSkip(read, text, end, t.out, Resume(t), cap);
      SeenJoined(read, text, offset, s, cap, chunk, end, t, p);
    }
  }

  lemma SeenJoined(read: Reader, text: string, offset: nat, s: State, cap: nat, chunk: string, end: nat, t: State,
                   p: nat)
    requires cap > 0 && end == offset + cap < p < |text| && chunk == text[offset..end] && !IsDigit(text[end - 1])
    requires read(s, chunk, false) == Some(t)
    requires Seen(read, text, end, t.out, Resume(t), cap) == (text[end..p], false)
    ensures Seen(read, text, offset, [], s, cap) == (text[offset..p], false)
  {
    MoreSeen(read, text, offset, [], s, cap, chunk, end, t);
    TrimmedPrefix(chunk);
    Slices(text, offset, end, p);
  }

  /** A pass only adds to what it has printed, and prints when it finds its place. */
  lemma {:induction false} PassGrows(p: Pass, rest: seq<Range>)
    ensures var q := MergeFrom(p, rest);
            p.out <= q.out && (p.found ==> q.found) && (!p.found && q.found ==> |p.out| < |q.out|)
    decreases |rest|
  {
    if rest != [] {
      StepGrows(p, rest[0]);
      PassGrows(MergeStep(p, rest[0]), rest[1..]);
    }
  }

  lemma StepGrows(p: Pass, r: Range)
    ensures var q := MergeStep(p, r);
            p.out <= q.out && (p.found ==> q.found) && (!p.found && q.found ==> |p.out| < |q.out|)
  {
  }

  /** If lines are left unread, what was printed lacks a line at least. */
  lemma LinesLost(p: Pass, rest: seq<Range>, total: int)
    requires PassInv(p, rest, total) && rest != []
    ensures var m := MergeEnd(MergeFrom(p, rest)).ranges;
            p.out <= m && |p.out| < |m|
  {
    var r, q := rest[0], MergeFrom(p, rest);
    assert r in rest;
    PassGrows(p, rest);
    if p.found {
      assert MergeStep(p, r).out == p.out + [] + [r];
      PassGrows(MergeStep(p, r), rest[1..]);
    }
  }

  lemma TextLonger(a: seq<Range>, b: seq<Range>)
    requires a <= b && |a| < |b|
    ensures |Text(a)| < |Text(b)|
  {
    var more := b[|a|..];
    assert b == a + more;
    TextAppend(a, more);
    TextCons(more);
  }

  /** What is left after a part of the file was read without its end: the lines printed so far, without
      the new range if it was not due yet. */
  lemma PartRead(rs: seq<Range>, n: Range, total: int, p: nat) returns (i: nat)
    requires Stored(rs, total) && Readable(rs, total) && Accepted(n, total) && p < |Text(rs)|
    ensures i < |rs|
    ensures Chunk(Initial(n), Text(rs)[..p], false).Some?
    ensures var t := Chunk(Initial(n), Text(rs)[..p], false).value;
            t.out == Text(PassAt(rs, n, i).out) && !t.complete
    ensures |Text(PassAt(rs, n, i).out)| < |Text(Merge(rs, n).ranges)|
  {
    var part;
    i, part := CutLine(rs, p);
    BeforeLastLine(rs, p, i, part);
    LinesRead(rs, n, total, i, part, p);
    PartShorter(rs, n, total, i);
  }

  lemma BeforeLastLine(rs: seq<Range>, p: nat, i: nat, part: string)
    requires p < |Text(rs)| && i <= |rs| && Text(rs)[..p] == Text(rs[..i]) + part
    ensures i < |rs|
  {
    assert rs[..|rs|] == rs && |Text(rs)[..p]| == p;
  }

  lemma PartShorter(rs: seq<Range>, n: Range, total: int, i: nat)
    requires Stored(rs, total) && Accepted(n, total) && i < |rs|
    ensures |Text(PassAt(rs, n, i).out)| < |Text(Merge(rs, n).ranges)|
  {
    var rest := rs[i..];
    assert rs == rs[..i] + rest;
    MergeFromAppend(Pass([], n, false), rs[..i], rest);
    PassThere(rs, n, total, i);
    LinesLost(PassAt(rs, n, i), rest, total);
    TextLonger(PassAt(rs, n, i).out, Merge(rs, n).ranges);
  }

  lemma LinesRead(rs: seq<Range>, n: Range, total: int, i: nat, part: string, p: nat)
    requires Stored(rs, total) && Readable(rs, total) && Accepted(n, total) && i <= |rs| && p <= |Text(rs)|
    requires Text(rs)[..p] == Text(rs[..i]) + part && '\n' !in part
    ensures Fold(Initial(n), Text(rs)[..p]).Some? && Zero(Initial(n)) == Initial(n)
    ensures var t := Fold(Initial(n), Text(rs)[..p]).value;
            t.out == Text(PassAt(rs, n, i).out) && !t.complete
  {
    var head, p0, s0 := rs[..i], Pass([], n, false), Initial(n);
    assert forall r | r in rs :: Accepted(r, total);
    assert forall r | r in head :: r in rs;
    FoldText(s0, p0, rs);
    FoldText(s0, p0, head);
    FoldSome(s0, Text(rs), p);
    FoldAppend(s0, Text(head), part);
    NothingCompleted(Fold(s0, Text(head)).value, part);
  }

  lemma {:induction false} NothingCompleted(s: State, part: string)
    requires '\n' !in part && Fold(s, part).Some?
    ensures Fold(s, part).value.out == s.out && Fold(s, part).value.complete == s.complete
  {
    if part != [] {
      NothingCompleted(s, part[..|part| - 1]);
    }
  }

  lemma {:induction false} PassThere(rs: seq<Range>, n: Range, total: int, i: nat)
    requires Stored(rs, total) && Accepted(n, total) && i <= |rs|
    ensures PassInv(PassAt(rs, n, i), rs[i..], total)
  {
    if i == 0 {
      assert rs[..0] == [] && rs[0..] == rs;
    } else {
      PassThere(rs, n, total, i - 1);
      var p0 := Pass([], n, false);
      assert rs[..i] == rs[..i - 1] + [rs[i - 1]];
      MergeFromAppend(p0, rs[..i - 1], [rs[i - 1]]);
      assert rs[i - 1..][0] == rs[i - 1] && rs[i - 1..][1..] == rs[i..];
      MergeStepInv(PassAt(rs, n, i - 1), rs[i - 1..], total);
      OneStep(PassAt(rs, n, i - 1), rs[i - 1]);
    }
  }

  lemma OneStep(p: Pass, r: Range)
    ensures MergeFrom(p, [r]) == MergeStep(p, r)
  {
    assert [r][1..] == [];
  }

  /** For every file whose first skip reaches its end: the lines printed by then are all that is left of
      it, the last line at least is lost, and the caller is told to go on. */
  lemma SkippedTailLost(rs: seq<Range>, n: Range, total: int, cap: nat) returns (i: nat)
    requires Stored(rs, total) && Readable(rs, total) && Accepted(n, total) && cap > 0
    requires CutsAtDelimiters(Text(rs), cap, 0) && SkipsToEnd(Chunk, Text(rs), 0, [], Initial(n), cap)
    ensures i < |rs| && MergeFile(Text(rs), n, cap, true) == More(Text(PassAt(rs, n, i).out))
    ensures MergeFile(Text(rs), n, cap, true) != MergedFile(rs, n)
  {
    var text := Text(rs);
    var p := SeenBeforeSkip(Chunk, text, 0, [], Initial(n), cap);
    i := PartRead(rs, n, total, p);
    StateFileIsSeen(text, n, cap);
  }

  /** Among the files that are cut between numbers and whose first skip, if there is one, reaches the end:
      the state file comes out right exactly if no buffer before the last two prints. */
  lemma MergedIffSilent(rs: seq<Range>, n: Range, total: int, cap: nat)
    requires Stored(rs, total) && Readable(rs, total) && Accepted(n, total) && cap > 0
    requires CutsAtDelimiters(Text(rs), cap, 0)
    requires Silent(Chunk, Text(rs), 0, Initial(n), cap) || SkipsToEnd(Chunk, Text(rs), 0, [], Initial(n), cap)
    ensures MergeFile(Text(rs), n, cap, true) == MergedFile(rs, n)
            <==> Silent(Chunk, Text(rs), 0, Initial(n), cap)
  {
    MergeText(rs, n, total);
    StoredReadable(rs, total);
    ReadWhole(n, Text(rs), cap);
    StateFileIsSeen(Text(rs), n, cap);
    if SkipsToEnd(Chunk, Text(rs), 0, [], Initial(n), cap) {
      var i := SkippedTailLost(rs, n, total, cap);
    }
  }

  /** A file longer than two buffers of which the first one prints at least what is behind the second. */
  lemma FirstBufferPrints(text: string, n: Range, cap: nat, t: State)
    requires cap > 0 && 2 * cap < |text| <= 2 * cap + |t.out|
    requires Chunk(Initial(n), text[..cap], false) == Some(t)
    ensures SkipsToEnd(Chunk, text, 0, [], Initial(n), cap)
  {
    assert text[0..0 + cap] == text[..cap];
    assert SkipsToEnd(Chunk, text, cap, t.out, Resume(t), cap);
  }
}
