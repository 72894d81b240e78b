/** A run of genuine segments that is declared finished with bytes missing. */
module EarlyFinish {
  import opened Ranges
  import opened RangeText
  import opened RangeTextProofs
  import opened RangeFile
  import opened RangeFileProofs
  import opened RangeFileSeen
  import opened RangeFileSkips
  import opened RangeFileCuts
  import opened RangeFileLines
  import opened RangeFileExamples
  import opened RangeFileClaims
  import opened RangeFileCutClaims
  import opened CarefulUploads
  import opened UploadSession
  import opened Wrappers

  // ------------------------------------------- a run with a merge that is not

  /** One segment from its start to its end, in one piece. */
  function Upload(id: nat, r: Range, file: int -> Byte): seq<Event> {
    [Start(id, r), Flush(id, Part(r, file)), Finish(id)]
  }

  function Part(r: Range, file: int -> Byte): seq<Byte> {
    if r.start <= r.end then seq(r.end - r.start + 1, k => file(r.start + k)) else []
  }

  function Uploaded(s: Session, r: Range, file: int -> Byte, cap: nat): Session
    requires cap > 0
  {
    Recorded(s.(content := Write(s.content, r.start, Part(r, file))), r.total, MergeFile(s.text, r, cap, true))
  }

  lemma RunNext(s: Session, e: Event, events: seq<Event>, rest: seq<Event>, file: int -> Byte, cap: nat, t: Session)
    requires cap > 0 && events == [e] + rest && t == Next(s, e, cap)
    ensures Run(s, events, cap) == Run(t, rest, cap)
    ensures GenuineRun(s, events, file, cap) <==> Genuine(s, e, file) && GenuineRun(t, rest, file, cap)
  {
    assert events[0] == e && events[1..] == rest;
  }

  lemma UploadSteps(s: Session, id: nat, r: Range, file: int -> Byte, cap: nat, s': Session)
    returns (s1: Session, s2: Session)
    requires cap > 0 && s.open == map[] && Accepted(r, r.total) && s' == Uploaded(s, r, file, cap)
    ensures s1 == Next(s, Start(id, r), cap) && s2 == Next(s1, Flush(id, Part(r, file)), cap)
    ensures s' == Next(s2, Finish(id), cap) && s'.open == map[]
    ensures Genuine(s1, Flush(id, Part(r, file)), file)
  {
    var buf := Part(r, file);
    s1 := s.(open := map[id := Segment(r, r.start)]);
    assert s.open[id := Segment(r, r.start)] == s1.open;
    assert Kept(Segment(r, r.start), buf) == buf;
    s2 := s1.(content := Write(s.content, r.start, buf), open := map[id := Segment(r, r.end + 1)]);
    assert s1.open[id := Segment(r, r.end + 1)] == s2.open;
    assert s2.open - {id} == map[];
    assert s2.(open := map[]) == s.(content := Write(s.content, r.start, buf));
  }

  lemma UploadRun(s: Session, id: nat, r: Range, file: int -> Byte, cap: nat, rest: seq<Event>, s': Session)
    requires cap > 0 && s.open == map[] && Accepted(r, r.total) && s' == Uploaded(s, r, file, cap)
    ensures s'.open == map[] && Run(s, Upload(id, r, file) + rest, cap) == Run(s', rest, cap)
    ensures GenuineRun(s', rest, file, cap) ==> GenuineRun(s, Upload(id, r, file) + rest, file, cap)
  {
    var s1, s2 := UploadSteps(s, id, r, file, cap, s');
    var e1, e2, e3 := Start(id, r), Flush(id, Part(r, file)), Finish(id);
    var after2, after1 := [e3] + rest, [e2] + ([e3] + rest);
    assert Upload(id, r, file) + rest == [e1] + after1;
    RunNext(s, e1, [e1] + after1, after1, file, cap, s1);
    RunNext(s1, e2, after1, after2, file, cap, s2);
    RunNext(s2, e3, after2, rest, file, cap, s');
  }

  /** Three honest segments, 0-9, 100-200 and 201-999 of 1000, in a buffer with room for 11 characters of the
      state file: the upload is declared finished with the bytes 10 to 99 never received. */
  lemma FinishedTooEarly(file: int -> Byte) returns (events: seq<Event>)
    ensures GenuineRun(FRESH, events, file, 11) && InCap(148) == 11
    ensures var s := Run(FRESH, events, 11);
            s.done == Some(1000) && forall x :: x in s.content <==> 0 <= x < 10 || 100 <= x < 1000
  {
    var r0, r1 := Range(0, 9, 1000), Range(100, 200, 1000);
    var rs, n := CompleteTooEarly();
    var s1 := Uploaded(FRESH, r0, file, 11);
    var s2 := Uploaded(s1, r1, file, 11);
    var s3 := Uploaded(s2, n, file, 11);
    events := ThreeRun(r0, r1, n, file, 11, s1, s2, s3);
    FirstTwo(r0, r1);
    forall x ensures x in s3.content <==> 0 <= x < 10 || 100 <= x < 1000 {
      ThreeWritten(r0, r1, n, file, s1.content, s2.content, s3.content, x);
    }
  }

  lemma ThreeRun(r0: Range, r1: Range, r2: Range, file: int -> Byte, cap: nat, s1: Session, s2: Session, s3: Session)
    returns (events: seq<Event>)
    requires cap > 0 && Accepted(r0, r0.total) && Accepted(r1, r1.total) && Accepted(r2, r2.total)
    requires s1 == Uploaded(FRESH, r0, file, cap) && s2 == Uploaded(s1, r1, file, cap)
             && s3 == Uploaded(s2, r2, file, cap)
    ensures GenuineRun(FRESH, events, file, cap) && Run(FRESH, events, cap) == s3
  {
    var last := Upload(3, r2, file);
    assert last + [] == last;
    events := Upload(1, r0, file) + (Upload(2, r1, file) + last);
    UploadRun(FRESH, 1, r0, file, cap, Upload(2, r1, file) + last, s1);
    UploadRun(s1, 2, r1, file, cap, last, s2);
    UploadRun(s2, 3, r2, file, cap, [], s3);
  }

  lemma ThreeWritten(r0: Range, r1: Range, r2: Range, file: int -> Byte, c1: map<int, Byte>, c2: map<int, Byte>,
                     c3: map<int, Byte>, x: int)
    requires Accepted(r0, r0.total) && Accepted(r1, r1.total) && Accepted(r2, r2.total)
    requires c1 == Write(map[], r0.start, Part(r0, file)) && c2 == Write(c1, r1.start, Part(r1, file))
    requires c3 == Write(c2, r2.start, Part(r2, file))
    ensures x in c3 <==> Has(r0, x) || Has(r1, x) || Has(r2, x)
  {
    Written(map[], r0.start, Part(r0, file), x);
    Written(c1, r1.start, Part(r1, file), x);
    Written(c2, r2.start, Part(r2, file), x);
  }

  lemma FirstTwo(r0: Range, r1: Range)
    requires r0 == Range(0, 9, 1000) && r1 == Range(100, 200, 1000)
    ensures MergeFile("", r0, 11, true) == More(Text([r0]))
    ensures MergeFile(Text([r0]), r1, 11, true) == More(Text([r0, r1]))
  {
    Spelled(r0, r1);
    LengthOfTwo(r0, r1);
    OneBufferMerged([], r0, 1000, 11);
    OneBufferMerged([r0], r1, 1000, 11);
    FirstMerges(r0, r1);
  }

  lemma FirstMerges(r0: Range, r1: Range)
    requires r0 == Range(0, 9, 1000) && r1 == Range(100, 200, 1000)
    ensures MergedFile([], r0) == More(Text([r0])) && MergedFile([r0], r1) == More(Text([r0, r1]))
  {
    OneStep(Pass([], r1, false), r0);
    assert [] + [r0] == [r0] && [r0] + [r1] == [r0, r1];
  }

  lemma OneBufferMerged(rs: seq<Range>, n: Range, total: int, cap: nat)
    requires 0 < cap && Stored(rs, total) && Readable(rs, total) && Accepted(n, total) && |Text(rs)| <= cap
    ensures MergeFile(Text(rs), n, cap, true) == MergedFile(rs, n)
  {
    WholeFile(rs, n, cap);
  }
}
