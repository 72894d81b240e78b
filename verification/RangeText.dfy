/** The text of the state file: one "start-end/total" line per range, and the character-by-character
    reader that merges a new range while it parses (ngx_media_upload_buf_merge_range). */
module RangeText {
  import opened Ranges
  import opened Wrappers

  predicate IsDigit(c: char) {
    '0' <= c <= '9'
  }

  function DigitOf(c: char): nat
    requires IsDigit(c)
  {
    c as int - '0' as int
  }

  function DigitChar(d: nat): char
    requires d < 10
  {
    ('0' as int + d) as char
  }

  /** "%O" */
  function Dec(n: int): string
    decreases n < 0, if n < 0 then -n else n
  {
    if n < 0 then "-" + Dec(-n)
    else if n < 10 then [DigitChar(n)]
    else Dec(n / 10) + [DigitChar(n % 10)]
  }

  /** "%O-%O/%O\n" */
  function Line(r: Range): string {
    Dec(r.start) + "-" + Dec(r.end) + "/" + Dec(r.total) + "\n"
  }

  function Text(rs: seq<Range>): string {
    if rs == [] then []
    else Text(rs[..|rs| - 1]) + Line(rs[|rs| - 1])
  }

  // ---------------------------------------------------------------- reader

  datatype Field = FStart | FEnd | FTotal

  /** `cur` is the line being read, `range` the new range as extended so far, `out` the text
      put in the output buffer. */
  datatype State = State(field: Field, cur: Range, range: Range, found: bool, complete: bool, out: string)

  function FieldValue(s: State): int {
    match s.field
    case FStart => s.cur.start
    case FEnd => s.cur.end
    case FTotal => s.cur.total
  }

  function SetField(s: State, v: int): State {
    match s.field
    case FStart => s.(cur := s.cur.(start := v))
    case FEnd => s.(cur := s.cur.(end := v))
    case FTotal => s.(cur := s.cur.(total := v))
  }

  function Zero(s: State): State {
    SetField(s, 0)
  }

  /** The line test of the state reader: it wants start < end. */
  predicate LineOk(cur: Range, total: int) {
    cur.start < cur.end && cur.start < cur.total && cur.end <= cur.total && cur.total == total
  }

  /** End of a good line: copy it, insert the new range before it, or absorb it. */
  function TakeLine(s: State): State {
    if s.cur.end + 1 < s.range.start then
      s.(out := s.out + Line(s.cur))
    else if s.cur.start > s.range.end + 1 then
      s.(out := s.out + (if s.found then [] else Line(s.range)) + Line(s.cur), found := true)
    else
      s.(range := Hull(s.range, s.cur))
  }

  /** One character; None is the "state file is corrupt" error. */
  function Step(s: State, c: char): (t: Option<State>) {
    if IsDigit(c) then Some(SetField(s, FieldValue(s) * 10 + DigitOf(c)))
    else if c == '-' && s.field == FStart then Some(Zero(s.(field := FEnd)))
    else if c == '/' && s.field == FEnd then Some(Zero(s.(field := FTotal)))
    else if c == '\n' && s.field == FTotal && LineOk(s.cur, s.range.total) then
      Some(Zero(TakeLine(s).(field := FStart)))
    else None
  }

  function Fold(s: State, text: string): (t: Option<State>) {
    if text == [] then Some(s)
    else
      var t :- Fold(s, text[..|text| - 1]);
      Step(t, text[|text| - 1])
  }

  /** End of the file. */
  function Finish(s: State): (t: Option<State>) {
    if s.field != FStart then None
    else if s.found then Some(s)
    else Some(s.(out := s.out + Line(s.range), found := true,
                 complete := s.range.start == 0 && s.range.end == s.range.total - 1))
  }

  /** One call of the reader on a buffer: the pending number restarts from zero. */
  function Chunk(s: State, buf: string, lastBuf: bool): (t: Option<State>) {
    var t :- Fold(Zero(s), buf);
    if lastBuf then Finish(t) else Some(t)
  }

  function Initial(n: Range): State {
    State(FStart, Range(0, 0, 0), n, false, false, [])
  }

  /** The merger object; the fields are those of ngx_media_upload_merger_state_t. */
  class Merger {
    var parserState: Field
    var current: Range
    var range: Range
    var foundLowerBound: bool
    var completeRanges: bool
    var outBuf: string

    function View(): State
      reads this
    {
      State(parserState, current, range, foundLowerBound, completeRanges, outBuf)
    }

    constructor (n: Range)
      ensures View() == Initial(n)
    {
      parserState, current, range := FStart, Range(0, 0, 0), n;
      foundLowerBound, completeRanges, outBuf := false, false, [];
    }

    method SetPending(v: int)
      modifies this`current
      ensures View() == SetField(old(View()), v)
    {
      match parserState
      case FStart => current := current.(start := v);
      case FEnd => current := current.(end := v);
      case FTotal => current := current.(total := v);
    }

    method AddRange(r: Range)
      modifies this`outBuf
      ensures outBuf == old(outBuf) + Line(r)
    {
      outBuf := outBuf + Line(r);
    }

    /** The tests and the three-way choice at the end of a line. */
    method EndLine() returns (ok: bool)
      modifies this
      ensures ok == (old(parserState) == FTotal && LineOk(old(current), old(range.total)))
      ensures ok ==> View() == TakeLine(old(View())).(field := FStart)
    {
      if parserState != FTotal {
        return false;
      }
      if current.start >= current.end || current.start >= current.total || current.end > current.total {
        return false;
      }
      if current.total != range.total {
        return false;
      }
      parserState := FStart;
      if current.end + 1 < range.start {
        AddRange(current);
        return true;
      }
      if current.start > range.end + 1 {
        if !foundLowerBound {
          AddRange(range);
        }
        AddRange(current);
        foundLowerBound := true;
        return true;
      }
      range := range.(start := if range.start < current.start then range.start else current.start,
                      end := if range.end > current.end then range.end else current.end);
      return true;
    }

    /** The body of the inner loop; `cut` is its `break`. */
    method ReadChar(c: char) returns (ok: bool, cut: bool)
      modifies this
      ensures ok == Step(old(View()), c).Some?
      ensures ok ==> (if cut then Zero(View()) else View()) == Step(old(View()), c).value
    {
      if IsDigit(c) {
        SetPending(FieldValue(View()) * 10 + DigitOf(c));
        return true, false;
      }
      if c == '-' {
        if parserState != FStart {
          return false, false;
        }
        parserState := FEnd;
        return true, true;
      }
      if c == '/' {
        if parserState != FEnd {
          return false, false;
        }
        parserState := FTotal;
        return true, true;
      }
      if c == '\n' {
        ok := EndLine();
        return ok, true;
      }
      return false, false;
    }

    method EndOfFile() returns (ok: bool)
      modifies this
      ensures ok == Finish(old(View())).Some?
      ensures ok ==> View() == Finish(old(View())).value
    {
      if parserState != FStart {
        return false;
      }
      if !foundLowerBound {
        AddRange(range);
        completeRanges := range.start == 0 && range.end == range.total - 1;
        foundLowerBound := true;
      }
      return true;
    }

    /** The inner loop: from `p0` on, up to a delimiter or the end of the buffer. */
    method ReadField(inBuf: string, p0: nat, ghost s0: State) returns (ok: bool, p: nat, cut: bool)
      requires p0 < |inBuf|
      requires Fold(s0, inBuf[..p0]) == Some(View())
      modifies this
      ensures p0 < p <= |inBuf|
      ensures ok ==> Fold(s0, inBuf[..p]) == Some(if cut then Zero(View()) else View())
      ensures ok && !cut ==> p == |inBuf|
      ensures !ok ==> Fold(s0, inBuf[..p]) == None
    {
      p, ok, cut := p0, true, false;
      while p != |inBuf|
        invariant p0 <= p <= |inBuf| && ok && !cut
        invariant Fold(s0, inBuf[..p]) == Some(View())
      {
        FoldNext(s0, inBuf, p);
        ok, cut := ReadChar(inBuf[p]);
        p := p + 1;
        if !ok || cut {
          return;
        }
      }
    }

    /** One call on a buffer. The pending number is reset on entry, so it is left out of the
        comparison; everything else is that of `Chunk`. */
    method BufMergeRange(inBuf: string, lastBuf: bool) returns (ok: bool)
      modifies this
      ensures ok == Chunk(old(View()), inBuf, lastBuf).Some?
      ensures ok ==> Zero(View()) == Zero(Chunk(old(View()), inBuf, lastBuf).value)
    {
      ghost var s0 := Zero(View());
      var p := 0;
      var cut := false;
      while true
        invariant 0 <= p <= |inBuf| && (p < |inBuf| || p == 0)
        invariant Fold(s0, inBuf[..p]) == Some(Zero(View()))
        decreases |inBuf| - p
      {
        SetPending(0);
        if p != |inBuf| {
          ok, p, cut := ReadField(inBuf, p, s0);
          if !ok {
            FoldFails(s0, inBuf, p);
            return;
          }
        }
        if p == |inBuf| {
          break;
        }
      }
      assert inBuf[..p] == inBuf;
      if lastBuf {
        ok := EndOfFile();
      } else {
        ok := true;
      }
    }
  }

  lemma FoldNext(s: State, text: string, p: nat)
    requires p < |text|
    ensures Fold(s, text[..p + 1]) == (var t :- Fold(s, text[..p]); Step(t, text[p]))
  {
    assert text[..p + 1][..p] == text[..p];
  }

  lemma {:induction false} FoldAppend(s: State, a: string, b: string)
    ensures Fold(s, a + b) == (var t :- Fold(s, a); Fold(t, b))
  {
    if b == [] {
      assert a + b == a;
    } else {
      assert (a + b)[..|a + b| - 1] == a + b[..|b| - 1];
      FoldAppend(s, a, b[..|b| - 1]);
    }
  }

  lemma FoldFails(s: State, text: string, p: nat)
    requires p <= |text| && Fold(s, text[..p]) == None
    ensures Fold(s, text) == None
  {
    assert text == text[..p] + text[p..];
    FoldAppend(s, text[..p], text[p..]);
  }
}
