/** ngx_media_upload_parse_range: the range of a segment, from its Content-Range header. The characters
    are read like those of the state file, but the accepted ranges are others. */
module RangeHeader {
  import opened Ranges
  import opened RangeText
  import opened RangeTextProofs
  import opened Wrappers

  /** `cur` has been read; the numbers not reached are what the caller's structure held before. */
  function Reading(was: Range, field: Field, cur: Range): State {
    State(field, cur, was, false, false, [])
  }

  function Begin(was: Range): State {
    Reading(was, FStart, Range(0, was.end, was.total))
  }

  predicate InHeader(r: Range) {
    r.start <= r.end && r.start < r.total && r.end < r.total
  }

  /** The number at the end of the header is only reset by a character that follows the slash. */
  function Left(text: string, cur: Range, was: Range): Range {
    if text != [] && text[|text| - 1] == '/' then cur.(total := was.total) else cur
  }

  function HeaderRange(text: string, was: Range): Option<Range> {
    if '\n' in text then None
    else
      var t :- Fold(Begin(was), text);
      var r := Left(text, t.cur, was);
      if t.field == FTotal && InHeader(r) then Some(r) else None
  }

  /** The loop over the characters; None is an error. */
  method ReadNumbers(text: string, was: Range) returns (r: Option<(Field, Range)>)
    ensures r.None? <==> '\n' in text || Fold(Begin(was), text) == None
    ensures r.Some? ==>
              var t := Fold(Begin(was), text).value;
              r.value.0 == t.field && (t.field == FTotal ==> r.value.1 == Left(text, t.cur, was))
  {
    var field, cur := FStart, Range(0, was.end, was.total);
    var p := 0;
    assert text[..0] == [];
    while p < |text|
      invariant 0 <= p <= |text| && '\n' !in text[..p]
      invariant p < |text| ==> Fold(Begin(was), text[..p]) == Some(Reading(was, field, cur))
      invariant p == |text| ==> Fold(Begin(was), text).Some? && Fold(Begin(was), text).value.field == field
      invariant p == |text| && field == FTotal ==> cur == Left(text, Fold(Begin(was), text).value.cur, was)
      invariant field != FTotal ==> cur.total == was.total
    {
      var c := text[p];
      assert text[..p + 1][..p] == text[..p] && text[..p + 1] == text[..p] + [c];
      assert p + 1 == |text| ==> text[..p + 1] == text;
      if IsDigit(c) {
        match field {
          case FStart => cur := cur.(start := cur.start * 10 + DigitOf(c));
          case FEnd => cur := cur.(end := cur.end * 10 + DigitOf(c));
          case FTotal => cur := cur.(total := cur.total * 10 + DigitOf(c));
        }
      } else if c == '-' && field == FStart {
        field := FEnd;
        cur := if p + 1 < |text| then cur.(end := 0) else cur;
      } else if c == '/' && field == FEnd {
        field := FTotal;
        cur := if p + 1 < |text| then cur.(total := 0) else cur;
      } else {
        assert c == '\n' || Fold(Begin(was), text[..p + 1]) == None;
        if c != '\n' {
          FoldFails(Begin(was), text, p + 1);
        }
        return None;
      }
      p := p + 1;
    }
    r := Some((field, cur));
  }

  method ParseRange(text: string, was: Range) returns (r: Option<Range>)
    ensures r == HeaderRange(text, was)
  {
    var t := ReadNumbers(text, was);
    if t.Some? && t.value.0 == FTotal && InHeader(t.value.1) {
      return Some(t.value.1);
    }
    r := None;
  }

  lemma {:induction false} DigitsOnly(n: nat)
    ensures forall c | c in Dec(n) :: IsDigit(c)
    ensures Dec(n) != []
  {
    if n >= 10 {
      DigitsOnly(n / 10);
    }
  }

  /** A printed range is accepted exactly if its numbers are those of a segment of a file, a segment of
      one byte included. */
  lemma PrintedRangeParses(r: Range, was: Range)
    requires r.start >= 0 && r.end >= 0 && r.total >= 0
    ensures HeaderRange(Dec(r.start) + "-" + Dec(r.end) + "/" + Dec(r.total), was)
         == if Accepted(r, r.total) then Some(r) else None
  {
    var text := Dec(r.start) + "-" + Dec(r.end) + "/" + Dec(r.total);
    DigitsOnly(r.start);
    DigitsOnly(r.end);
    DigitsOnly(r.total);
    assert '\n' !in text;
    assert text[|text| - 1] == Dec(r.total)[|Dec(r.total)| - 1];
    FoldNumbers(Begin(was), r);
  }
}
