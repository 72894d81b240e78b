/** The boundary matcher of the multipart parser: upload_state_data without the sinks. */
module Matcher {

  /** The delimiter: CR LF - - boundary. CR and LF occur nowhere else in it, because the boundary is
      cut at " ;\n\r" when it is taken from the Content-Type header. */
  predicate IsDelimiter(d: string) {
    |d| > 4 && d[..4] == "\r\n--" && forall i | 4 <= i < |d| :: d[i] != '\r' && d[i] != '\n'
  }

  /** boundary_start and boundary_pos as offsets in the delimiter. */
  datatype Match = Match(start: nat, pos: nat)

  predicate Valid(d: string, m: Match) {
    m.start <= 1 && m.start <= m.pos < |d|
  }

  /** One byte of body: the new position, and what is given to the output. A mismatch inside the
      delimiter outputs what was matched and reads the byte again from the start. */
  function Advance(d: string, m: Match, c: char): (r: (Match, string))
    requires IsDelimiter(d) && Valid(d, m)
    ensures r.0.start <= 1 && r.0.start <= r.0.pos <= |d|
    decreases m.pos - m.start
  {
    if c == d[m.pos] then (m.(pos := m.pos + 1), [])
    else if m.pos == m.start then
      if c == '\n' then (Match(1, 2), []) else (m, [c])
    else
      var again := Advance(d, Match(0, 0), c);
      (again.0, d[m.start..m.pos] + again.1)
  }

  /** The bytes of `s` up to where the delimiter is complete, if it ever is. */
  datatype Scan = Open(m: Match, out: string) | Hit(start: nat, out: string, length: nat)

  function Body(d: string, m: Match, s: string): (r: Scan)
    requires IsDelimiter(d) && Valid(d, m)
    ensures r.Open? ==> Valid(d, r.m)
    decreases |s|
  {
    if s == [] then Open(m, [])
    else
      match Body(d, m, s[..|s| - 1])
      case Hit(start, out, n) => Hit(start, out, n)
      case Open(m1, out) =>
        var r := Advance(d, m1, s[|s| - 1]);
        if r.0.pos == |d| then Hit(r.0.start, out + r.1, |s|) else Open(r.0, out + r.1)
  }

  /** The line feed of the delimiter and everything behind it: all a match needs. */
  function Mark(d: string): string
    requires IsDelimiter(d)
  {
    d[1..]
  }

  predicate OccursAt(s: string, pat: string, i: int) {
    0 <= i && i + |pat| <= |s| && s[i..i + |pat|] == pat
  }

  predicate Occurs(s: string, pat: string) {
    exists i | 0 <= i <= |s| :: OccursAt(s, pat, i)
  }

  /** The suffix of `s` from `i` on begins the mark without completing it. */
  predicate Begins(s: string, pat: string, i: int) {
    0 <= i < |s| && |s| - i < |pat| && s[i..] == pat[..|s| - i]
  }

  /** What is known when `s` was consumed since the start of the body: nothing is lost, no mark was
      complete, and a mark that has begun is the one being matched. */
  predicate Tracking(d: string, s: string, m: Match, out: string)
    requires IsDelimiter(d)
  {
    && Valid(d, m)
    && s == out + d[m.start..m.pos]
    && (forall i | 0 <= i <= |s| :: !OccursAt(s, Mark(d), i))
    && (forall i | 0 <= i < |s| :: Begins(s, Mark(d), i) ==> i == |s| - (m.pos - 1))
  }

  lemma DelimiterChars(d: string)
    requires IsDelimiter(d)
    ensures d[0] == '\r' && d[1] == '\n' && d[2] == '-' && d[3] == '-'
    ensures forall i | 2 <= i < |d| :: d[i] != '\r' && d[i] != '\n'
  {
    assert d[..4][0] == d[0] && d[..4][1] == d[1] && d[..4][2] == d[2] && d[..4][3] == d[3];
  }

  /** A mark begun in s + [c] was begun in s and continues with c, or begins with c. */
  lemma BeginsExtends(d: string, s: string, m: Match, out: string, c: char, i: int)
    requires IsDelimiter(d) && Tracking(d, s, m, out) && 0 <= i <= |s|
    requires |s| + 1 - i <= |Mark(d)| && (s + [c])[i..] == Mark(d)[..|s| + 1 - i]
    ensures if i == |s| then c == '\n' else i == |s| - (m.pos - 1) && c == d[m.pos]
  {
    DelimiterChars(d);
    var u := s + [c];
    assert u[i..][|s| - i] == c == Mark(d)[|s| - i];
    if i < |s| {
      assert s[i..] == u[i..][..|s| - i] == Mark(d)[..|s| - i];
      assert Begins(s, Mark(d), i);
    }
  }

  lemma OldOccurrence(s: string, c: char, pat: string, i: int)
    requires 0 <= i && i + |pat| <= |s|
    ensures OccursAt(s + [c], pat, i) <==> OccursAt(s, pat, i)
  {
    assert (s + [c])[i..i + |pat|] == s[i..i + |pat|];
  }

  /** Nothing is lost: what was consumed is what was output followed by what is matched. */
  lemma AdvanceConserves(d: string, m: Match, c: char)
    requires IsDelimiter(d) && Valid(d, m)
    ensures var r := Advance(d, m, c); d[m.start..m.pos] + [c] == r.1 + d[r.0.start..r.0.pos]
  {
    DelimiterChars(d);
    if c != d[m.pos] && m.pos != m.start {
      var again := Advance(d, Match(0, 0), c);
      assert [c] == again.1 + d[again.0.start..again.0.pos];
    }
  }

  lemma AdvanceMark(d: string, m: Match, c: char)
    requires IsDelimiter(d) && Valid(d, m)
    ensures var m1 := Advance(d, m, c).0;
            && (c == d[m.pos] ==> m1.pos == m.pos + 1)
            && (c != d[m.pos] ==> m1.pos <= 2)
            && (c == '\n' ==> m1.pos == 2)
  {
    DelimiterChars(d);
  }

  lemma AdvanceSplit(d: string, s: string, m: Match, out: string, c: char)
    requires IsDelimiter(d) && Tracking(d, s, m, out)
    ensures var r := Advance(d, m, c); s + [c] == out + r.1 + d[r.0.start..r.0.pos]
  {
    AdvanceConserves(d, m, c);
    assert s + [c] == out + (d[m.start..m.pos] + [c]);
  }

  lemma NoNewOccurrence(d: string, s: string, m: Match, out: string, c: char, i: int)
    requires IsDelimiter(d) && Tracking(d, s, m, out) && Advance(d, m, c).0.pos < |d|
    ensures !OccursAt(s + [c], Mark(d), i)
  {
    var u, mark := s + [c], Mark(d);
    if OccursAt(u, mark, i) {
      if i + |mark| <= |s| {
        OldOccurrence(s, c, mark, i);
      } else {
        assert u[i..] == mark[..|s| + 1 - i];
        BeginsExtends(d, s, m, out, c, i);
        AdvanceMark(d, m, c);
      }
    }
  }

  /** One byte keeps the tracking, or completes the mark for the first time. */
  lemma AdvanceTracks(d: string, s: string, m: Match, out: string, c: char)
    requires IsDelimiter(d) && Tracking(d, s, m, out)
    ensures var r, u := Advance(d, m, c), s + [c];
            && u == out + r.1 + d[r.0.start..r.0.pos]
            && (r.0.pos < |d| ==> Tracking(d, u, r.0, out + r.1))
  {
    var r, u := Advance(d, m, c), s + [c];
    AdvanceSplit(d, s, m, out, c);
    if r.0.pos < |d| {
      forall i | 0 <= i <= |u| ensures !OccursAt(u, Mark(d), i) {
        NoNewOccurrence(d, s, m, out, c, i);
      }
      AdvanceMark(d, m, c);
      forall i | 0 <= i < |u| && Begins(u, Mark(d), i) ensures i == |u| - (r.0.pos - 1) {
        BeginsExtends(d, s, m, out, c, i);
      }
    }
  }

  // --------------------------------------------- where the body ends

  /** Whether the carriage return of a delimiter is matched: not while the matcher still works with
      the bare-LF delimiter of the part before, which lasts up to the first line feed. */
  predicate Recovered(start0: nat, s: string) {
    start0 == 0 || '\n' in s
  }

  predicate EndsInCr(s: string) {
    s != [] && s[|s| - 1] == '\r'
  }

  /** The body when `s` stands before the mark. */
  function BodyText(start0: nat, s: string): string {
    if EndsInCr(s) && Recovered(start0, s) then s[..|s| - 1] else s
  }

  /** Which of the two delimiters is being matched. */
  predicate Mode(start0: nat, s: string, m: Match) {
    if m.pos <= 1 then
      && (m.start == 0 ==> Recovered(start0, s) && (m.pos == 1 <==> EndsInCr(s)))
      && (m.start == 1 ==> !Recovered(start0, s))
    else
      && m.pos - 1 <= |s|
      && var before := s[..|s| - (m.pos - 1)];
      m.start == 0 <==> Recovered(start0, before) && EndsInCr(before)
  }

  lemma MatchedChars(d: string, s: string, m: Match, out: string)
    requires IsDelimiter(d) && Tracking(d, s, m, out) && m.pos >= 2
    ensures m.pos - 1 <= |s| && s[|s| - (m.pos - 1)] == '\n' && s[|s| - 1] == d[m.pos - 1]
  {
    DelimiterChars(d);
    var tail := d[m.start..m.pos];
    assert |s| == |out| + |tail|;
    assert s[|out| + (1 - m.start)] == tail[1 - m.start] == d[1];
    assert s[|out| + (|tail| - 1)] == tail[|tail| - 1] == d[m.pos - 1];
  }

  lemma AdvanceMode(d: string, start0: nat, s: string, m: Match, out: string, c: char)
    requires IsDelimiter(d) && Tracking(d, s, m, out) && Mode(start0, s, m)
    ensures Mode(start0, s + [c], Advance(d, m, c).0)
  {
    var u := s + [c];
    assert u[..|s|] == s;
    assert Recovered(start0, u) <==> Recovered(start0, s) || c == '\n';
    if m.pos >= 2 {
      MatchedChars(d, s, m, out);
      AdvancePending(d, m, c);
      assert s[|s| - (m.pos - 1)] in s;
      PendingMode(d, start0, s, m, c);
    } else {
      AdvanceIdle(d, m, c);
    }
  }

  lemma PendingMode(d: string, start0: nat, s: string, m: Match, c: char)
    requires IsDelimiter(d) && Valid(d, m) && 2 <= m.pos <= |s| + 1 && Mode(start0, s, m) && '\n' in s
    requires s[|s| - 1] == d[m.pos - 1]
    ensures Mode(start0, s + [c], if c == d[m.pos] then Match(m.start, m.pos + 1)
                                  else if c == '\r' then Match(0, 1)
                                  else if c == '\n' then Match(1, 2)
                                  else Match(0, 0))
  {
    DelimiterChars(d);
    var u := s + [c];
    assert u[..|s| - (m.pos - 1)] == s[..|s| - (m.pos - 1)];
    assert u[..|s|] == s;
    assert '\n' in u;
  }

  /** What a byte does to a match that has not reached the line feed. */
  lemma AdvanceIdle(d: string, m: Match, c: char)
    requires IsDelimiter(d) && Valid(d, m) && m.pos <= 1
    ensures Advance(d, m, c).0 ==
            if c == '\n' then Match(if m == Match(0, 1) then 0 else 1, 2)
            else if m.start == 1 then m
            else Match(0, if c == '\r' then 1 else 0)
  {
    DelimiterChars(d);
  }

  /** What a byte does to a match that is past the line feed. */
  lemma AdvancePending(d: string, m: Match, c: char)
    requires IsDelimiter(d) && Valid(d, m) && m.pos >= 2
    ensures Advance(d, m, c).0 ==
            if c == d[m.pos] then Match(m.start, m.pos + 1)
            else if c == '\r' then Match(0, 1)
            else if c == '\n' then Match(1, 2)
            else Match(0, 0)
  {
    DelimiterChars(d);
  }

  lemma AbsentStep(d: string, start0: nat, s: string, m: Match, out: string, c: char)
    requires IsDelimiter(d) && Tracking(d, s, m, out) && Mode(start0, s, m) && !Occurs(s + [c], Mark(d))
    ensures var a := Advance(d, m, c);
            a.0.pos < |d| && Tracking(d, s + [c], a.0, out + a.1) && Mode(start0, s + [c], a.0)
  {
    AdvanceTracks(d, s, m, out, c);
    AdvanceMode(d, start0, s, m, out, c);
    var a := Advance(d, m, c);
    if a.0.pos == |d| {
      SuffixOccurs(s + [c], out + a.1, d[a.0.start..], Mark(d), 1 - a.0.start);
    }
  }

  lemma BodyPush(d: string, m0: Match, s: string, c: char)
    requires IsDelimiter(d) && Valid(d, m0) && Body(d, m0, s).Open?
    ensures var r := Body(d, m0, s);
            var a := Advance(d, r.m, c);
            Body(d, m0, s + [c])
            == if a.0.pos == |d| then Hit(a.0.start, r.out + a.1, |s| + 1) else Open(a.0, r.out + a.1)
  {
    assert (s + [c])[..|s|] == s;
  }

  /** As long as the mark has not occurred the scan is open and tracks it. */
  lemma {:induction false} BodyOpen(d: string, start0: nat, s: string)
    requires IsDelimiter(d) && start0 <= 1 && !Occurs(s, Mark(d))
    ensures var r := Body(d, Match(start0, start0), s);
            r.Open? && Tracking(d, s, r.m, r.out) && Mode(start0, s, r.m)
  {
    if s == [] {
      assert d[start0..start0] == [];
    } else {
      var front, c := s[..|s| - 1], s[|s| - 1];
      assert s == front + [c];
      StillAbsent(front, c, Mark(d));
      BodyOpen(d, start0, front);
      var r := Body(d, Match(start0, start0), front);
      AbsentStep(d, start0, front, r.m, r.out, c);
      BodyPush(d, Match(start0, start0), front, c);
    }
  }

  lemma StillAbsent(front: string, c: char, pat: string)
    requires !Occurs(front + [c], pat)
    ensures !Occurs(front, pat)
  {
    forall i | 0 <= i <= |front| ensures !OccursAt(front, pat, i) {
      if i + |pat| <= |front| {
        OldOccurrence(front, c, pat, i);
        assert !OccursAt(front + [c], pat, i);
      }
    }
  }

  lemma SuffixOccurs(s: string, out: string, tail: string, pat: string, k: nat)
    requires s == out + tail && k <= |tail| && tail[k..] == pat
    ensures Occurs(s, pat)
  {
    assert s[|s| - |pat|..] == tail[k..];
    assert OccursAt(s, pat, |s| - |pat|);
  }

  /** The body ends with the first mark in the stream, and is what stands before it, less the carriage
      return that belongs to the delimiter. */
  lemma BodyHit(d: string, start0: nat, body: string)
    requires IsDelimiter(d) && start0 <= 1
    requires forall i | 0 <= i < |body| :: !OccursAt(body + Mark(d), Mark(d), i)
    ensures var s := body + Mark(d);
            Body(d, Match(start0, start0), s)
            == Hit(if EndsInCr(body) && Recovered(start0, body) then 0 else 1, BodyText(start0, body), |s|)
  {
    var mark := Mark(d);
    var s := body + mark;
    var front, c := s[..|s| - 1], s[|s| - 1];
    assert s == front + [c];
    forall i | 0 <= i <= |front| ensures !OccursAt(front, mark, i) {
      if i + |mark| <= |front| {
        OldOccurrence(front, c, mark, i);
      }
    }
    BodyOpen(d, start0, front);
    var r := Body(d, Match(start0, start0), front);
    LastByte(d, start0, body, front, c, r.m, r.out);
    BodyPush(d, Match(start0, start0), front, c);
  }

  /** All but the last byte of the mark are matched. */
  lemma LastByte(d: string, start0: nat, body: string, front: string, c: char, m: Match, out: string)
    requires IsDelimiter(d) && start0 <= 1 && body + Mark(d) == front + [c]
    requires Tracking(d, front, m, out) && Mode(start0, front, m)
    ensures Advance(d, m, c) == (Match(m.start, |d|), [])
    ensures m.start == if EndsInCr(body) && Recovered(start0, body) then 0 else 1
    ensures out + [] == BodyText(start0, body)
  {
    var mark, s := Mark(d), front + [c];
    assert front[|body|..] == s[|body|..][..|mark| - 1] == mark[..|mark| - 1];
    assert Begins(front, mark, |body|);
    assert front[..|body|] == s[..|body|] == body;
    assert c == s[|s| - 1] == mark[|mark| - 1];
    AdvanceSplit(d, front, m, out, c);
    assert s == out + [] + d[m.start..];
    BodyOfSplit(d, body, out, m.start);
  }

  lemma BodyOfSplit(d: string, body: string, out: string, start: nat)
    requires IsDelimiter(d) && start <= 1 && body + Mark(d) == out + [] + d[start..]
    requires start == 0 ==> EndsInCr(body)
    ensures out + [] == if start == 0 then body[..|body| - 1] else body
  {
    DelimiterChars(d);
    var s := body + Mark(d);
    assert |out| == |s| - |d[start..]|;
    assert out == s[..|out|];
    assert body == s[..|body|];
  }

  /** In any stream the body ends exactly at the first mark; what follows is not looked at. */
  lemma {:induction false} BodyStops(d: string, start0: nat, body: string, rest: string)
    requires IsDelimiter(d) && start0 <= 1
    requires forall i | 0 <= i < |body| :: !OccursAt(body + Mark(d), Mark(d), i)
    ensures Body(d, Match(start0, start0), body + Mark(d) + rest)
         == Body(d, Match(start0, start0), body + Mark(d))
         == Hit(if EndsInCr(body) && Recovered(start0, body) then 0 else 1, BodyText(start0, body), |body| + |Mark(d)|)
  {
    BodyHit(d, start0, body);
    var s := body + Mark(d) + rest;
    if rest == [] {
      assert s == body + Mark(d);
    } else {
      BodyStops(d, start0, body, rest[..|rest| - 1]);
      assert s[..|s| - 1] == body + Mark(d) + rest[..|rest| - 1];
    }
  }
}
