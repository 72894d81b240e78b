/** What a buffer that ends inside a number does to the state file. */
module RangeFileCuts {
  import opened Sequences
  import opened Ranges
  import opened RangeText
  import opened RangeTextProofs
  import opened RangeFile
  import opened RangeFileProofs
  import opened RangeFileSeen
  import opened RangeFileSkips
  import opened Wrappers

  predicate Digits(s: string) {
    forall c | c in s :: IsDigit(c)
  }

  /** The number that a string of digits spells; leading zeros do not matter, and no digits spell 0. */
  function ValueOf(s: string): (v: nat)
    requires Digits(s)
  {
    if s == [] then 0 else ValueOf(s[..|s| - 1]) * 10 + DigitOf(s[|s| - 1])
  }

  lemma {:induction false} FoldDigits(s: State, ds: string)
    requires Digits(ds) && FieldValue(s) == 0
    ensures Fold(s, ds) == Some(SetField(s, ValueOf(ds)))
  {
    if ds != [] {
      FoldDigits(s, ds[..|ds| - 1]);
    }
  }

  lemma {:induction false} DecDigits(n: nat)
    ensures Digits(Dec(n)) && Dec(n) != [] && ValueOf(Dec(n)) == n
  {
    if n >= 10 {
      DecDigits(n / 10);
      assert Dec(n)[..|Dec(n)| - 1] == Dec(n / 10);
    } else {
      assert Dec(n)[..0] == [];
    }
  }

  /** A line of three numbers, each in any digits. */
  function DigitLine(a: string, b: string, c: string): string {
    a + "-" + b + "/" + c + "\n"
  }

  lemma FoldThree(s: State, a: string, b: string, c: string)
    requires AtLine(s) && Digits(a) && Digits(b) && Digits(c)
    ensures Fold(s, a + "-" + b + "/" + c)
            == Some(s.(field := FTotal, cur := Range(ValueOf(a), ValueOf(b), ValueOf(c))))
  {
    var s1 := SetField(s, ValueOf(a));
    FoldDigits(s, a);
    FoldAppend(s, a, "-");
    FoldChar(s1, '-');
    var s2 := s1.(field := FEnd, cur := s1.cur.(end := 0));
    FoldAppend(s, a + "-", b);
    FoldDigits(s2, b);
    var s3 := SetField(s2, ValueOf(b));
    FoldAppend(s, a + "-" + b, "/");
    FoldChar(s3, '/');
    var s4 := s3.(field := FTotal, cur := s3.cur.(total := 0));
    FoldAppend(s, a + "-" + b + "/", c);
    FoldDigits(s4, c);
  }

  /** Whatever its digits, the line is taken or refused by its values. */
  lemma FoldDigitLine(s: State, a: string, b: string, c: string)
    requires AtLine(s) && Digits(a) && Digits(b) && Digits(c)
    ensures var r := Range(ValueOf(a), ValueOf(b), ValueOf(c));
            Fold(s, DigitLine(a, b, c))
            == if LineOk(r, s.range.total) then Some(Zero(TakeLine(s.(field := FTotal, cur := r)).(field := FStart)))
               else None
  {
    var r := Range(ValueOf(a), ValueOf(b), ValueOf(c));
    FoldThree(s, a, b, c);
    FoldAppend(s, a + "-" + b + "/" + c, "\n");
    FoldChar(s.(field := FTotal, cur := r), '\n');
  }

  /** Lines, one line in other digits, lines: read as the list of their values. */
  lemma FoldAround(n: Range, before: seq<Range>, a: string, b: string, c: string, after: seq<Range>)
    requires Digits(a) && Digits(b) && Digits(c)
    requires Readable(before, n.total) && Readable(after, n.total)
    requires (forall r | r in before :: NonNeg(r)) && forall r | r in after :: NonNeg(r)
    ensures var r := Range(ValueOf(a), ValueOf(b), ValueOf(c));
            var read := Chunk(Initial(n), Text(before) + DigitLine(a, b, c) + Text(after), true);
            var merged := Merge(before + [r] + after, n);
            if LineOk(r, n.total) then
              read.Some? && read.value.out == Text(merged.ranges) && read.value.complete == merged.complete
            else read == None
  {
    var r, s0, p0 := Range(ValueOf(a), ValueOf(b), ValueOf(c)), Initial(n), Pass([], n, false);
    assert Zero(s0) == s0;
    FoldText(s0, p0, before);
    var s1, p1 := Fold(s0, Text(before)).value, MergeFrom(p0, before);
    RangeKept(p0, before);
    FoldAppend(s0, Text(before), DigitLine(a, b, c));
    FoldDigitLine(s1, a, b, c);
    FoldAppend(s0, Text(before) + DigitLine(a, b, c), Text(after));
    if LineOk(r, n.total) {
      TakeLineTracks(s1, p1, r);
      var s2, p2 := Zero(TakeLine(s1.(field := FTotal, cur := r)).(field := FStart)), MergeStep(p1, r);
      RangeKept(p1, [r]);
      OneStep(p1, r);
      FoldText(s2, p2, after);
      MergeFromAppend(p0, before, [r]);
      MergeFromAppend(p0, before + [r], after);
      FinishTracks(Fold(s2, Text(after)).value, MergeFrom(p2, after));
    }
  }

  lemma {:induction false} RangeKept(p: Pass, rs: seq<Range>)
    ensures MergeFrom(p, rs).range.total == p.range.total
    decreases |rs|
  {
    if rs != [] {
      RangeKept(MergeStep(p, rs[0]), rs[1..]);
    }
  }

  lemma FinishTracks(s: State, p: Pass)
    requires Tracks(s, p)
    ensures Finish(s).Some? && Finish(s).value.out == Text(MergeEnd(p).ranges)
    ensures Finish(s).value.complete == MergeEnd(p).complete
  {
    TextPush(p.out, p.range);
  }

  // ------------------------------------------------------ where a cut falls

  function NumberOf(r: Range, f: Field): int {
    match f case FStart => r.start case FEnd => r.end case FTotal => r.total
  }

  /** What stands in a line before one of its numbers, and behind it. */
  function Before(r: Range, f: Field): string {
    match f
    case FStart => ""
    case FEnd => Dec(r.start) + "-"
    case FTotal => Dec(r.start) + "-" + Dec(r.end) + "/"
  }

  function Behind(r: Range, f: Field): string {
    match f
    case FStart => "-" + Dec(r.end) + "/" + Dec(r.total) + "\n"
    case FEnd => "/" + Dec(r.total) + "\n"
    case FTotal => "\n"
  }

  lemma LineParts(r: Range, f: Field)
    ensures Line(r) == Before(r, f) + Dec(NumberOf(r, f)) + Behind(r, f)
  {
  }

  /** The number without its first k digits. */
  function Rest(r: Range, f: Field, k: nat): string
    requires NonNeg(r) && k <= |Dec(NumberOf(r, f))|
  {
    Dec(NumberOf(r, f))[k..]
  }

  lemma RestDigits(r: Range, f: Field, k: nat)
    requires NonNeg(r) && k <= |Dec(NumberOf(r, f))|
    ensures Digits(Rest(r, f, k)) && Digits(Dec(NumberOf(r, f))[..k])
  {
    DecDigits(NumberOf(r, f));
  }

  /** The range that is read when the first k digits of a number are lost. */
  function CutRange(r: Range, f: Field, k: nat): Range
    requires NonNeg(r) && k <= |Dec(NumberOf(r, f))|
  {
    RestDigits(r, f, k);
    var v := ValueOf(Rest(r, f, k));
    match f case FStart => r.(start := v) case FEnd => r.(end := v) case FTotal => r.(total := v)
  }

  lemma {:induction false} ValueOfTail(s: string, k: nat)
    requires Digits(s) && k <= |s|
    ensures Digits(s[k..]) && Digits(s[..k])
    ensures ValueOf(s) >= ValueOf(s[k..]) + ValueOf(s[..k])
    decreases |s|
  {
    if k == |s| {
      assert s[..k] == s;
    } else {
      var front := s[..|s| - 1];
      ValueOfTail(front, k);
      assert front[k..] == s[k..][..|s| - k - 1] && front[..k] == s[..k];
    }
  }

  lemma {:induction false} DecHead(n: nat, k: nat)
    requires 0 < k <= |Dec(n)| && n > 0
    ensures Digits(Dec(n)[..k]) && ValueOf(Dec(n)[..k]) > 0
  {
    DecDigits(n);
    if n < 10 {
      assert Dec(n)[..k] == Dec(n);
    } else if k == |Dec(n)| {
      assert Dec(n)[..k] == Dec(n);
    } else {
      DecHead(n / 10, k);
      assert Dec(n)[..k] == Dec(n / 10)[..k];
    }
  }

  /** A number that loses digits gets smaller, unless it is 0. */
  lemma CutLess(n: nat, k: nat)
    requires 0 < k <= |Dec(n)|
    ensures Digits(Dec(n)[k..]) && ValueOf(Dec(n)[k..]) <= n
    ensures ValueOf(Dec(n)[k..]) == n <==> n == 0
  {
    DecDigits(n);
    ValueOfTail(Dec(n), k);
    if n > 0 {
      DecHead(n, k);
    }
  }

  /** Every cut behind a digit falls into one number of one line. */
  lemma CutPlace(rs: seq<Range>, cap: nat) returns (i: nat, f: Field, k: nat)
    requires 0 < cap <= |Text(rs)| && IsDigit(Text(rs)[cap - 1]) && forall r | r in rs :: NonNeg(r)
    ensures i < |rs| && 0 < k <= |Dec(NumberOf(rs[i], f))|
    ensures cap == |Text(rs[..i])| + |Before(rs[i], f)| + k
  {
    var part;
    i, part := CutLine(rs, cap);
    TextEnds(rs[..i]);
    EndsInPart(Text(rs), cap, Text(rs[..i]), part);
    TextAround(rs, i, Line(rs[i]));
    PartOfMiddle(Text(rs), cap, Text(rs[..i]), Line(rs[i]), Text(rs[i + 1..]), part);
    f, k := NumberAt(rs[i], |part|);
  }

  lemma EndsInPart(text: string, cap: nat, head: string, part: string)
    requires 0 < cap <= |text| && IsDigit(text[cap - 1]) && text[..cap] == head + part
    requires head == [] || head[|head| - 1] == '\n'
    ensures part != [] && part[|part| - 1] == text[cap - 1]
  {
    assert text[cap - 1] == (head + part)[cap - 1];
  }

  lemma PartOfMiddle(text: string, cap: nat, head: string, middle: string, after: string, part: string)
    requires text == head + middle + after && cap <= |text| && text[..cap] == head + part && |part| <= |middle|
    ensures part == middle[..|part|]
  {
    assert text[..cap][|head|..] == part;
    assert (head + middle + after)[|head|..cap] == middle[..|part|];
  }

  /** The number in a line whose digit stands before a place. */
  lemma NumberAt(r: Range, p: nat) returns (f: Field, k: nat)
    requires 0 < p < |Line(r)| && IsDigit(Line(r)[p - 1])
    ensures 0 < k <= |Dec(NumberOf(r, f))| && p == |Before(r, f)| + k
  {
    var a, b := |Dec(r.start)|, |Dec(r.end)|;
    LineParts(r, FStart);
    LineParts(r, FEnd);
    LineParts(r, FTotal);
    assert Line(r)[a] == '-' && Line(r)[a + 1 + b] == '/' && Line(r)[|Line(r)| - 1] == '\n';
    if p <= a {
      f, k := FStart, p;
    } else if p <= a + 1 + b {
      f, k := FEnd, p - a - 1;
    } else {
      f, k := FTotal, p - a - b - 2;
    }
  }

  lemma TextEnds(rs: seq<Range>)
    ensures Text(rs) == [] || Text(rs)[|Text(rs)| - 1] == '\n'
  {
  }

  lemma TextThree(before: seq<Range>, r: Range, after: seq<Range>)
    ensures Text(before + [r] + after) == Text(before) + Line(r) + Text(after)
  {
    TextPush(before, r);
    TextAppend(before + [r], after);
  }

  lemma TextAround(rs: seq<Range>, i: nat, line: string)
    requires i < |rs| && line == Line(rs[i])
    ensures Text(rs) == Text(rs[..i]) + line + Text(rs[i + 1..])
  {
    Parts(rs, i);
    TextThree(rs[..i], rs[i], rs[i + 1..]);
  }

  // ------------------------------------------------- the file after a cut

  /** A file of two buffers is read without the digits before the cut. */
  lemma TwoBuffersSeen(text: string, n: Range, cap: nat)
    requires 0 < cap < |text| <= 2 * cap && Fold(Initial(n), text[..cap]).Some?
    ensures SeenBy(text, n, cap) == (Trimmed(text[..cap]) + text[cap..], true)
  {
    var s0, chunk := Initial(n), text[..cap];
    assert Zero(s0) == s0 && TurnChunk(text, |text|, 0, cap) == chunk;
    var t := Chunk(s0, chunk, false).value;
    MoreSeen(Chunk, text, 0, [], s0, cap, chunk, cap, t);
    assert TurnChunk(text, |text|, cap, cap) == text[cap..];
    LastSeen(Chunk, text, cap, t.out, Resume(t), cap, text[cap..], |text|);
  }

  lemma {:induction false} TrimmedDigits(s: string, ds: string)
    requires Digits(ds) && (s == [] || !IsDigit(s[|s| - 1]))
    ensures Trimmed(s + ds) == s
  {
    if ds == [] {
      assert s + ds == s;
    } else {
      assert (s + ds)[..|s + ds| - 1] == s + ds[..|ds| - 1];
      TrimmedDigits(s, ds[..|ds| - 1]);
    }
  }

  /** A text cut inside a number: `lost` stands before the cut, `kept` behind it. */
  lemma Regroup(before: string, pre: string, lost: string, kept: string, post: string, after: string)
    ensures before + (pre + (lost + kept) + post) + after == (before + pre + lost) + (kept + post + after)
    ensures before + (pre + kept + post) + after == (before + pre) + (kept + post + after)
  {
    Assoc(pre, lost, kept);
    Assoc(pre + lost, kept, post);
    Assoc(before, pre + lost, kept + post);
    Assoc(before, pre, lost);
    Assoc(before + pre + lost, kept + post, after);
    Assoc(pre, kept, post);
    Assoc(before, pre, kept + post);
    Assoc(before + pre, kept + post, after);
  }

  lemma CutInside(text: string, before: string, pre: string, number: string, post: string, after: string, k: nat,
                  cap: nat)
    requires text == before + (pre + number + post) + after && k <= |number| && cap == |before| + |pre| + k
    requires Digits(number[..k]) && (before + pre == [] || !IsDigit((before + pre)[|before + pre| - 1]))
    ensures cap <= |text| && Trimmed(text[..cap]) == before + pre && text[cap..] == number[k..] + post + after
    ensures before + pre + (number[k..] + post + after) == before + (pre + number[k..] + post) + after
  {
    assert number == number[..k] + number[k..];
    Regroup(before, pre, number[..k], number[k..], post, after);
    SplitAtCut(text, before + pre + number[..k], number[k..] + post + after, cap);
    TrimmedDigits(before + pre, number[..k]);
  }

  lemma SplitAtCut(text: string, head: string, tail: string, cap: nat)
    requires text == head + tail && |head| == cap
    ensures cap <= |text| && text[..cap] == head && text[cap..] == tail
  {
  }

  lemma NoDigitBefore(head: string, r: Range, f: Field, pre: string)
    requires head == [] || head[|head| - 1] == '\n'
    requires pre == Before(r, f)
    ensures head + pre == [] || !IsDigit((head + pre)[|head + pre| - 1])
  {
  }

  /** The text around a cut. */
  lemma CutText(rs: seq<Range>, i: nat, f: Field, k: nat, cap: nat) returns (head: string, tail: string)
    requires i < |rs| && NonNeg(rs[i]) && 0 < k <= |Dec(NumberOf(rs[i], f))|
    requires cap == |Text(rs[..i])| + |Before(rs[i], f)| + k
    ensures cap < |Text(rs)| && Trimmed(Text(rs)[..cap]) == head && Text(rs)[cap..] == tail
    ensures head + tail == Text(rs[..i]) + (Before(rs[i], f) + Rest(rs[i], f, k) + Behind(rs[i], f)) + Text(rs[i + 1..])
  {
    LineParts(rs[i], f);
    assert |Behind(rs[i], f)| > 0;
    TextAround(rs, i, Before(rs[i], f) + Dec(NumberOf(rs[i], f)) + Behind(rs[i], f));
    TextEnds(rs[..i]);
    NoDigitBefore(Text(rs[..i]), rs[i], f, Before(rs[i], f));
    RestDigits(rs[i], f, k);
    CutInside(Text(rs), Text(rs[..i]), Before(rs[i], f), Dec(NumberOf(rs[i], f)), Behind(rs[i], f), Text(rs[i + 1..]),
        k, cap);
    head, tail := Text(rs[..i]) + Before(rs[i], f), Rest(rs[i], f, k) + Behind(rs[i], f) + Text(rs[i + 1..]);
  }

  /** The three ways to take a line apart. */
  lemma DigitLineParts(a: string, b: string, c: string)
    ensures "" + a + ("-" + b + "/" + c + "\n") == DigitLine(a, b, c)
    ensures a + "-" + b + ("/" + c + "\n") == DigitLine(a, b, c)
    ensures a + "-" + b + "/" + c + "\n" == DigitLine(a, b, c)
  {
    Assoc(a, "-", b + "/" + c + "\n");
    Assoc4(a + "-", b, "/" + c, "\n");
  }

  /** A line with another number at one of its places. */
  lemma OtherNumber(r: Range, f: Field, x: string, s: string, e: string, t: string)
    requires s == Dec(r.start) && e == Dec(r.end) && t == Dec(r.total)
    ensures Before(r, f) + x + Behind(r, f)
         == match f case FStart => DigitLine(x, e, t) case FEnd => DigitLine(s, x, t) case FTotal => DigitLine(s, e, x)
  {
    match f
    case FStart => DigitLineParts(x, e, t);
    case FEnd => DigitLineParts(s, x, t);
    case FTotal => DigitLineParts(s, e, x);
  }

  /** A line that has lost digits is a line of other digits. */
  lemma CutDigitLine(r: Range, f: Field, k: nat) returns (a: string, b: string, c: string)
    requires NonNeg(r) && k <= |Dec(NumberOf(r, f))|
    ensures Digits(a) && Digits(b) && Digits(c) && CutRange(r, f, k) == Range(ValueOf(a), ValueOf(b), ValueOf(c))
    ensures Before(r, f) + Rest(r, f, k) + Behind(r, f) == DigitLine(a, b, c)
  {
    RestDigits(r, f, k);
    DecDigits(r.start);
    DecDigits(r.end);
    DecDigits(r.total);
    OtherNumber(r, f, Rest(r, f, k), Dec(r.start), Dec(r.end), Dec(r.total));
    match f
    case FStart => a, b, c := Rest(r, f, k), Dec(r.end), Dec(r.total);
    case FEnd => a, b, c := Dec(r.start), Rest(r, f, k), Dec(r.total);
    case FTotal => a, b, c := Dec(r.start), Dec(r.end), Rest(r, f, k);
  }

  /** What is read of a file of two buffers that is cut inside a number. */
  lemma CutSeen(rs: seq<Range>, n: Range, total: int, cap: nat, i: nat, f: Field, k: nat, line: string)
    requires Stored(rs, total) && Readable(rs, total) && Accepted(n, total)
    requires i < |rs| && NonNeg(rs[i]) && 0 < k <= |Dec(NumberOf(rs[i], f))|
    requires 0 < cap == |Text(rs[..i])| + |Before(rs[i], f)| + k && |Text(rs)| <= 2 * cap
    requires line == Before(rs[i], f) + Rest(rs[i], f, k) + Behind(rs[i], f)
    ensures SeenBy(Text(rs), n, cap) == (Text(rs[..i]) + line + Text(rs[i + 1..]), true)
  {
    var head, tail := CutText(rs, i, f, k, cap);
    PrefixReads(rs, n, total, cap);
    TwoBuffersSeen(Text(rs), n, cap);
  }

  lemma PrefixReads(rs: seq<Range>, n: Range, total: int, p: nat)
    requires Stored(rs, total) && Readable(rs, total) && Accepted(n, total) && p <= |Text(rs)|
    ensures Fold(Initial(n), Text(rs)[..p]).Some?
  {
    StoredReadable(rs, total);
    FoldText(Initial(n), Pass([], n, false), rs);
    FoldSome(Initial(n), Text(rs), p);
  }

  /** A total that loses digits is not the total of the upload. */
  lemma CutTotal(r: Range, f: Field, k: nat, total: int)
    requires Accepted(r, total) && 0 < k <= |Dec(NumberOf(r, f))| && f == FTotal
    ensures NonNeg(r) && !LineOk(CutRange(r, f, k), total)
  {
    CutLess(r.total, k);
  }

  /** Any file of two buffers that is cut inside a number: it is merged as if that number began behind the
      cut. A total that is cut makes the merge fail. */
  lemma CutNumber(rs: seq<Range>, n: Range, total: int, cap: nat, i: nat, f: Field, k: nat)
    requires Stored(rs, total) && Readable(rs, total) && Accepted(n, total)
    requires i < |rs| && NonNeg(rs[i]) && 0 < k <= |Dec(NumberOf(rs[i], f))|
    requires cap == |Text(rs[..i])| + |Before(rs[i], f)| + k && |Text(rs)| <= 2 * cap
    ensures var r := CutRange(rs[i], f, k);
            if LineOk(r, total) then MergeFile(Text(rs), n, cap, true) == MergedFile(rs[..i] + [r] + rs[i + 1..], n)
            else MergeFile(Text(rs), n, cap, true).Corrupt?
    ensures f == FTotal ==> !LineOk(CutRange(rs[i], f, k), total)
  {
    StoredReadable(rs, total);
    assert rs[i] in rs;
    var a, b, c := CutDigitLine(rs[i], f, k);
    CutSeen(rs, n, total, cap, i, f, k, DigitLine(a, b, c));
    assert forall r | r in rs[..i] + rs[i + 1..] :: r in rs;
    FoldAround(n, rs[..i], a, b, c, rs[i + 1..]);
    StateFileIsSeen(Text(rs), n, cap);
    if f == FTotal {
      CutTotal(rs[i], f, k, total);
    }
  }

  // ------------------------------------------- when a cut does no harm

  lemma LineInjective(r: Range, q: Range)
    requires NonNeg(r) && NonNeg(q) && Line(r) == Line(q)
    ensures r == q
  {
    var s := Initial(r);
    var a, b := Dec(r.start) + "-" + Dec(r.end) + "/" + Dec(r.total), Dec(q.start) + "-" + Dec(q.end) + "/"
        + Dec(q.total);
    FoldNumbers(s, r);
    FoldNumbers(s, q);
    assert a == (a + "\n")[..|a|] && b == (b + "\n")[..|b|];
  }

  lemma LastBreak(b: string, q: Range, j: nat)
    requires j + 1 < |b + Line(q)| && (b + Line(q))[j] == '\n'
    ensures j < |b|
  {
    LineBody(q);
    var front := Line(q)[..|Line(q)| - 1];
    forall k | |b| <= k < |b + Line(q)| - 1 ensures (b + Line(q))[k] != '\n' {
      assert (b + Line(q))[k] == front[k - |b|];
    }
  }

  /** Lines that end in the same line begin with the same text. */
  lemma LastLine(a: string, r: Range, b: string, q: Range)
    requires a + Line(r) == b + Line(q)
    requires (a == [] || a[|a| - 1] == '\n') && (b == [] || b[|b| - 1] == '\n')
    ensures a == b && Line(r) == Line(q)
  {
    if a != [] {
      assert (a + Line(r))[|a| - 1] == '\n';
      LastBreak(b, q, |a| - 1);
    }
    if b != [] {
      assert (b + Line(q))[|b| - 1] == '\n';
      LastBreak(a, r, |b| - 1);
    }
    assert (a + Line(r))[..|a|] == a && (b + Line(q))[..|b|] == b;
    assert (a + Line(r))[|a|..] == Line(r) && (b + Line(q))[|b|..] == Line(q);
  }

  lemma SameLast(a: seq<Range>, r: Range, b: seq<Range>, q: Range)
    requires NonNeg(r) && NonNeg(q) && Text(a) + Line(r) == Text(b) + Line(q)
    ensures r == q && Text(a) == Text(b)
  {
    TextEnds(a);
    TextEnds(b);
    LastLine(Text(a), r, Text(b), q);
    LineInjective(r, q);
  }

  /** The text of a list tells the list. */
  lemma {:induction false} TextInjective(a: seq<Range>, b: seq<Range>)
    requires (forall r | r in a :: NonNeg(r)) && (forall r | r in b :: NonNeg(r)) && Text(a) == Text(b)
    ensures a == b
  {
    if a != [] && b != [] {
      SameLast(a[..|a| - 1], a[|a| - 1], b[..|b| - 1], b[|b| - 1]);
      TextInjective(a[..|a| - 1], b[..|b| - 1]);
    }
  }

  lemma {:induction false} PassNonNeg(p: Pass, rs: seq<Range>)
    requires NonNeg(p.range) && (forall r | r in p.out :: NonNeg(r)) && forall r | r in rs :: NonNeg(r)
    ensures var q := MergeFrom(p, rs); NonNeg(q.range) && forall r | r in q.out :: NonNeg(r)
    decreases |rs|
  {
    if rs != [] {
      assert NonNeg(rs[0]);
      PassNonNeg(MergeStep(p, rs[0]), rs[1..]);
    }
  }

  lemma MergeNonNeg(rs: seq<Range>, n: Range)
    requires NonNeg(n) && forall r | r in rs :: NonNeg(r)
    ensures forall r | r in Merge(rs, n).ranges :: NonNeg(r)
  {
    PassNonNeg(Pass([], n, false), rs);
  }

  lemma SameFile(a: seq<Range>, b: seq<Range>, n: Range)
    requires NonNeg(n) && (forall r | r in a :: NonNeg(r)) && forall r | r in b :: NonNeg(r)
    ensures MergedFile(a, n) == MergedFile(b, n) <==> Merge(a, n) == Merge(b, n)
  {
    MergeNonNeg(a, n);
    MergeNonNeg(b, n);
    if MergedFile(a, n) == MergedFile(b, n) {
      TextInjective(Merge(a, n).ranges, Merge(b, n).ranges);
    }
  }

  lemma CutNonNeg(rs: seq<Range>, i: nat, f: Field, k: nat)
    requires i < |rs| && (forall r | r in rs :: NonNeg(r)) && k <= |Dec(NumberOf(rs[i], f))|
    ensures forall r | r in rs[..i] + [CutRange(rs[i], f, k)] + rs[i + 1..] :: NonNeg(r)
  {
    assert NonNeg(rs[i]);
    assert NonNeg(CutRange(rs[i], f, k));
    assert forall r | r in rs[..i] :: r in rs;
    assert forall r | r in rs[i + 1..] :: r in rs;
  }

  /** A file of two buffers that is cut behind a digit comes out right exactly if the list with the cut
      number is readable and the new range makes up for the difference. */
  lemma CutRightIff(rs: seq<Range>, n: Range, total: int, cap: nat) returns (i: nat, f: Field, k: nat)
    requires Stored(rs, total) && Readable(rs, total) && Accepted(n, total)
    requires 0 < cap < |Text(rs)| <= 2 * cap && IsDigit(Text(rs)[cap - 1])
    ensures i < |rs| && NonNeg(rs[i]) && 0 < k <= |Dec(NumberOf(rs[i], f))|
    ensures cap == |Text(rs[..i])| + |Before(rs[i], f)| + k
    ensures var r := CutRange(rs[i], f, k);
            MergeFile(Text(rs), n, cap, true) == MergedFile(rs, n)
            <==> LineOk(r, total) && Merge(rs[..i] + [r] + rs[i + 1..], n) == Merge(rs, n)
  {
    StoredReadable(rs, total);
    i, f, k := CutPlace(rs, cap);
    CutNumber(rs, n, total, cap, i, f, k);
    CutNonNeg(rs, i, f, k);
    SameFile(rs[..i] + [CutRange(rs[i], f, k)] + rs[i + 1..], rs, n);
  }
}
