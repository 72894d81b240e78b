/** State files that a merge spoils. */
module RangeFileExamples {
  import opened Ranges
  import opened RangeText
  import opened RangeTextProofs
  import opened RangeFile
  import opened RangeFileProofs
  import opened RangeFileSeen
  import opened RangeFileSkips
  import opened RangeFileCuts
  import opened RangeFileLines
  import opened Wrappers

  // ------------------------------------------------ a number that is cut

  /** Two segments are recorded and a third arrives. In a buffer of 11 characters (merge_buffer_size 148)
      100-200 is read as 0-200: the merge reports that the file is complete, though bytes 10 to 99 were
      never sent. */
  lemma CompleteTooEarly() returns (rs: seq<Range>, n: Range)
    ensures Stored(rs, 1000) && Readable(rs, 1000) && Accepted(n, 1000) && InCap(148) == 11
    ensures MergeFile(Text(rs), n, 11, true) == Complete(Text([Range(0, 9, 1000), Range(0, 999, 1000)]))
    ensures forall x | 10 <= x < 100 :: !Covers(rs, x) && !Has(n, x)
    ensures rs == [Range(0, 9, 1000), Range(100, 200, 1000)] && n == Range(201, 999, 1000)
  {
    var r0, r1, r2 := Range(0, 9, 1000), Range(100, 200, 1000), Range(0, 200, 1000);
    rs, n := [r0, r1], Range(201, 999, 1000);
    TwoApart(r0, r1);
    Spelled(r0, r1);
    LengthOfTwo(r0, r1);
    assert rs[..1] == [r0] && rs[..1] + [r2] + rs[2..] == [r0, r2];
    CutNumber(rs, n, 1000, 11, 1, FStart, 2);
    TwoMerged(r0, r2, n, Range(0, 999, 1000));
  }

  /** The same file and buffer, but 10-99 arrives: 100-200 is read as 0-200 too, and the merge is right. */
  lemma CutMadeGood() returns (rs: seq<Range>, n: Range)
    ensures rs == [Range(0, 9, 1000), Range(100, 200, 1000)] && n == Range(10, 99, 1000) && Accepted(n, 1000)
    ensures MergeFile(Text(rs), n, 11, true) == MergedFile(rs, n) == More(Text([Range(0, 200, 1000)]))
  {
    var r0, r1, r2 := Range(0, 9, 1000), Range(100, 200, 1000), Range(0, 200, 1000);
    rs, n := [r0, r1], Range(10, 99, 1000);
    TwoApart(r0, r1);
    Spelled(r0, r1);
    LengthOfTwo(r0, r1);
    assert rs[..1] == [r0] && rs[..1] + [r2] + rs[2..] == [r0, r2];
    CutNumber(rs, n, 1000, 11, 1, FStart, 2);
    BothJoin(r0, r1, n, r2);
    BothJoin(r0, r2, n, r2);
  }

  lemma BothJoin(a: Range, b: Range, n: Range, whole: Range)
    requires a == Range(0, 9, 1000) && (b == Range(100, 200, 1000) || b == whole) && n == Range(10, 99, 1000)
    requires whole == Range(0, 200, 1000)
    ensures MergedFile([a, b], n) == More(Text([whole]))
  {
    assert [a, b][1..] == [b];
    var p := Pass([], n, false);
    OneStep(MergeStep(p, a), b);
    assert Merge([a, b], n) == Merged([whole], false);
  }

  lemma TwoApart(r0: Range, r1: Range)
    requires r0 == Range(0, 9, 1000) && r1 == Range(100, 200, 1000)
    ensures Stored([r0, r1], 1000) && Readable([r0, r1], 1000)
    ensures forall x | 10 <= x < 100 :: !Covers([r0, r1], x)
  {
    forall x | 10 <= x < 100 ensures !Covers([r0, r1], x) {
      CoversWitness([r0, r1], x);
    }
  }

  lemma LengthOfTwo(a: Range, b: Range)
    ensures |Text([a])| == |Line(a)| && |Text([a, b])| == |Line(a)| + |Line(b)|
  {
    TextOne(a);
    TextPush([a], b);
    assert [a] + [b] == [a, b];
  }

  lemma Spelled(r0: Range, r1: Range)
    requires r0 == Range(0, 9, 1000) && r1 == Range(100, 200, 1000)
    ensures |Line(r0)| == 9 && |Line(r1)| == 13
    ensures |Dec(r1.start)| == 3 && CutRange(r1, FStart, 2) == Range(0, 200, 1000)
  {
    Spelling();
    assert "100"[2..] == "0" && "0"[..0] == [];
    assert ValueOf("0") == 0;
  }

  lemma Spelling()
    ensures Dec(0) == "0" && Dec(9) == "9" && Dec(100) == "100" && Dec(200) == "200" && Dec(1000) == "1000"
  {
    assert Dec(1) == "1" && Dec(10) == "10" && Dec(2) == "2" && Dec(20) == "20";
  }

  lemma TwoMerged(a: Range, b: Range, n: Range, whole: Range)
    requires a == Range(0, 9, 1000) && b == Range(0, 200, 1000) && n == Range(201, 999, 1000)
    requires whole == Range(0, 999, 1000)
    ensures MergedFile([a, b], n) == Complete(Text([a, whole]))
  {
    assert [a, b][1..] == [b];
    var p := Pass([], n, false);
    OneStep(MergeStep(p, a), b);
    assert MergeStep(p, a).out == [a];
    assert Merge([a, b], n) == Merged([a, whole], true);
  }

  // ------------------------------------------------ a skip into a line

  lemma ShortLine(r: Range)
    requires 10 <= r.start < 100 && 10 <= r.end < 100 && 10 <= r.total < 100
    ensures |Line(r)| == 9 && Line(r)[2] == '-' && Line(r)[5] == '/'
    ensures Line(r)[..3] == Dec(r.start) + "-" && Line(r)[3..] == Dec(r.end) + "/" + Dec(r.total) + "\n"
  {
    assert |Dec(r.start)| == 2 && |Dec(r.end)| == 2 && |Dec(r.total)| == 2;
  }

  lemma FiveLines(a: Range, b: Range, c: Range, d: Range, e: Range)
    ensures Text([a, b, c, d, e]) == Line(a) + Line(b) + Line(c) + Line(d) + Line(e)
  {
    TextOne(a);
    TextPush([a], b);
    TextPush([a, b], c);
    TextPush([a, b, c], d);
    TextPush([a, b, c, d], e);
    assert [a] + [b] == [a, b] && [a, b] + [c] == [a, b, c] && [a, b, c] + [d] == [a, b, c, d];
    assert [a, b, c, d] + [e] == [a, b, c, d, e];
  }

  lemma FourLines(a: Range, b: Range, c: Range, d: Range)
    ensures Text([a, b, c, d]) == Line(a) + Line(b) + Line(c) + Line(d)
  {
    TextOne(a);
    TextPush([a], b);
    TextPush([a, b], c);
    TextPush([a, b, c], d);
    assert [a] + [b] == [a, b] && [a, b] + [c] == [a, b, c] && [a, b, c] + [d] == [a, b, c, d];
  }

  /** Five lines of nine characters, cut at 15 and 30, with nine characters skipped behind the second cut. */
  lemma CutsOfFive(l: seq<string>, text: string)
    requires |l| == 5 && (forall i | 0 <= i < 5 :: |l[i]| == 9) && text == l[0] + l[1] + l[2] + l[3] + l[4]
    ensures |text| == 45 && text[..15] == l[0] + l[1][..6] && text[14] == l[1][5] && text[29] == l[3][2]
    ensures text[..15] + (text[15..30] + text[39..]) == l[0] + l[1] + l[2] + (l[3][..3] + l[4][3..])
  {
    assert l[3] == l[3][..3] + l[3][3..] && l[4] == l[4][..3] + l[4][3..];
    assert text[..30] == l[0] + l[1] + l[2] + l[3][..3];
    assert text[39..] == l[4][3..];
    assert text[..15] + text[15..30] == text[..30];
  }

  lemma ThreeTurns(text: string, n: Range, t: State)
    requires |text| == 45 && !IsDigit(text[14]) && !IsDigit(text[29]) && Chunk(Initial(n), text, true).Some?
    requires Chunk(Initial(n), text[..15], false) == Some(t) && |t.out| == 9
    ensures SeenBy(text, n, 15) == (text[..15] + (text[15..30] + text[39..]), true)
  {
    var c1, c2, c3 := text[..15], text[15..30], text[39..];
    assert Zero(Initial(n)) == Initial(n);
    var t2 := CleanBuffer(n, text, 15, 30);
    assert Resume(StateAt(n, text, 15)) == Resume(t);
    TrimmedPrefix(c1);
    TrimmedPrefix(c2);
    assert TurnChunk(text, |text|, 0, 15) == c1 && TurnChunk(text, |text|, 15, 15) == c2;
    assert TurnChunk(text, |text|, 39, 15) == c3;
    MoreSeen(Chunk, text, 0, [], Initial(n), 15, c1, 15, t);
    MoreSeen(Chunk, text, 15, t.out, Resume(t), 15, c2, 39, t2);
    LastSeen(Chunk, text, 39, t2.out, Resume(t2), 15, c3, 45);
  }

  /** No number is cut here, but what is skipped begins and ends inside a line: 38-41 and 44-45 become 38-45,
      and with the new range 46-49 the bytes 42 and 43 are claimed, which were never sent. */
  lemma SkipInsideLine() returns (rs: seq<Range>, n: Range, ranges: seq<Range>)
    ensures Stored(rs, 50) && Readable(rs, 50) && Accepted(n, 50) && CutsAtDelimiters(Text(rs), 15, 0)
    ensures MergeFile(Text(rs), n, 15, true) == More(Text(ranges))
    ensures Covers(ranges, 42) && !Covers(rs, 42) && !Has(n, 42)
  {
    var a, b, c, d, e := Range(15, 17, 50), Range(22, 23, 50), Range(33, 34, 50), Range(38, 41, 50), Range(44, 45, 50);
    var d' := Range(38, 45, 50);
    rs, n := [a, b, c, d, e], Range(46, 49, 50);
    SpoiltLists(rs, [a, b, c, d']);
    var l := SpoiltText(a, b, c, d, e, d');
    ShortLine(a);
    ShortLine(b);
    ShortLine(c);
    ShortLine(d);
    ShortLine(e);
    SpoiltSeen(rs, [a, b, c, d'], n, l);
    ranges := SpoiltMerge(Text(rs), [a, b, c, d'], n, 50, 15, 42);
  }

  lemma SpoiltLine(d: Range, e: Range, d': Range)
    requires d == Range(38, 41, 50) && e == Range(44, 45, 50) && d' == Range(38, 45, 50)
    ensures Line(d)[..3] + Line(e)[3..] == Line(d')
  {
    ShortLine(d);
    ShortLine(e);
    ShortLine(d');
    assert Line(d') == Line(d')[..3] + Line(d')[3..];
  }

  lemma FirstPrints(rs: seq<Range>, n: Range, total: int, part: string) returns (t: State)
    requires Stored(rs, total) && Readable(rs, total) && Accepted(n, total) && |Text(rs)| >= 15 && rs != []
    requires rs[0].end + 1 < n.start && |Line(rs[0])| == 9 && '\n' !in part
    requires Text(rs)[..15] == Line(rs[0]) + part
    ensures Chunk(Initial(n), Text(rs)[..15], false) == Some(t) && |t.out| == 9
  {
    assert rs[..1] == [rs[0]];
    TextOne(rs[0]);
    LinesRead(rs, n, total, 1, part, 15);
    assert Zero(Initial(n)) == Initial(n);
    t := Fold(Initial(n), Text(rs)[..15]).value;
    OneStep(Pass([], n, false), rs[0]);
    assert [] + [rs[0]] == [rs[0]];
  }

  lemma SpoiltMerge(text: string, seen: seq<Range>, n: Range, total: int, cap: nat, x: int) returns (ranges: seq<Range>)
    requires cap > 0 && Stored(seen, total) && Readable(seen, total) && Accepted(n, total)
    requires SeenBy(text, n, cap) == (Text(seen), true) && Covers(seen, x) && !Covers(seen, 0) && !Has(n, 0)
    ensures MergeFile(text, n, cap, true) == More(Text(ranges)) && Covers(ranges, x)
  {
    StoredReadable(seen, total);
    MergeText(seen, n, total);
    StateFileIsSeen(text, n, cap);
    MergeIsUnion(seen, n, total);
    CompleteIffWhole(seen, n, total);
    ranges := Merge(seen, n).ranges;
  }

  lemma SpoiltLists(rs: seq<Range>, seen: seq<Range>)
    requires rs == [Range(15, 17, 50), Range(22, 23, 50), Range(33, 34, 50), Range(38, 41, 50), Range(44, 45, 50)]
    requires seen == [Range(15, 17, 50), Range(22, 23, 50), Range(33, 34, 50), Range(38, 45, 50)]
    ensures Stored(rs, 50) && Readable(rs, 50) && Stored(seen, 50) && Readable(seen, 50)
    ensures !Covers(rs, 42) && Covers(seen, 42) && !Covers(seen, 0)
  {
    CoversWitness(rs, 42);
    CoversWitness(seen, 42);
    CoversWitness(seen, 0);
    assert Has(seen[3], 42);
  }

  lemma SpoiltSeen(rs: seq<Range>, seen: seq<Range>, n: Range, l: seq<string>)
    requires |rs| == 5 && |seen| == 4 && l == [Line(rs[0]), Line(rs[1]), Line(rs[2]), Line(rs[3]), Line(rs[4])]
    requires Stored(rs, 50) && Readable(rs, 50) && Accepted(n, 50) && rs[0].end + 1 < n.start
    requires Text(rs) == l[0] + l[1] + l[2] + l[3] + l[4]
    requires Text(seen) == l[0] + l[1] + l[2] + (l[3][..3] + l[4][3..])
    requires forall i | 0 <= i < 5 :: |l[i]| == 9 && l[i][5] == '/' && l[i][2] == '-'
    ensures SeenBy(Text(rs), n, 15) == (Text(seen), true) && CutsAtDelimiters(Text(rs), 15, 0)
  {
    CutsOfFive(l, Text(rs));
    LineBody(rs[1]);
    assert l[1][..6] == l[1][..8][..6];
    StoredReadable(rs, 50);
    MergeText(rs, n, 50);
    var t := FirstPrints(rs, n, 50, l[1][..6]);
    ThreeTurns(Text(rs), n, t);
    assert CutsAtDelimiters(Text(rs), 15, 30);
    assert CutsAtDelimiters(Text(rs), 15, 15);
  }

  lemma SpoiltText(a: Range, b: Range, c: Range, d: Range, e: Range, d': Range) returns (l: seq<string>)
    requires d == Range(38, 41, 50) && e == Range(44, 45, 50) && d' == Range(38, 45, 50)
    ensures l == [Line(a), Line(b), Line(c), Line(d), Line(e)]
    ensures Text([a, b, c, d, e]) == l[0] + l[1] + l[2] + l[3] + l[4]
    ensures Text([a, b, c, d']) == l[0] + l[1] + l[2] + (l[3][..3] + l[4][3..])
  {
    l := [Line(a), Line(b), Line(c), Line(d), Line(e)];
    FiveLines(a, b, c, d, e);
    FourLines(a, b, c, d');
    SpoiltLine(d, e, d');
  }

  // ------------------------------------------------ a refusal after a write

  /** A file of two buffers that is refused in the second: the output of the first was written already, and
      nothing is cut off behind it. */
  lemma RefusedAfterWrite(text: string, n: Range, cap: nat, t: State)
    requires 0 < cap < |text| <= 2 * cap && Chunk(Initial(n), text[..cap], false) == Some(t)
    requires Chunk(Resume(t), text[cap..], true).None?
    ensures MergeFile(text, n, cap, true) == Corrupt(Overlay(text, 0, t.out))
  {
    OverlayNothing(text, 0);
    assert TurnChunk(text, |text|, 0, cap) == text[..cap];
    assert TurnChunk(text, |text|, cap, cap) == text[cap..];
    var text1 := Overlay(text, 0, t.out);
    RewriteTurn(Chunk, text, |text|, 0, 0, [], Initial(n), cap, true, text[..cap], text, cap, 0, Some(t));
    RewriteTurn(Chunk, text, |text|, cap, 0, t.out, Resume(t), cap, true, text[cap..], text1, |text| + |t.out|, |t.out|,
                None);
  }
}
