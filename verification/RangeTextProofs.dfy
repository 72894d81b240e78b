/** The text layer does what the interval lists say: printed lines parse back, and merging the
    text of a list is merging the list. */
module RangeTextProofs {
  import opened Sequences
  import opened Ranges
  import opened RangeText
  import opened Wrappers

  lemma {:induction false} FoldDec(s: State, n: nat)
    requires FieldValue(s) == 0
    ensures Fold(s, Dec(n)) == Some(SetField(s, n))
  {
    if n < 10 {
      assert Fold(s, []) == Some(s);
      assert Dec(n)[..0] == [];
    } else {
      FoldDec(s, n / 10);
      assert Dec(n)[..|Dec(n)| - 1] == Dec(n / 10);
    }
  }

  lemma FoldChar(s: State, c: char)
    ensures Fold(s, [c]) == Step(s, c)
  {
    assert [c][..0] == [];
  }

  predicate NonNeg(r: Range) {
    0 <= r.start && 0 <= r.end && 0 <= r.total
  }

  /** At the start of a line with its first number reset. */
  predicate AtLine(s: State) {
    s.field == FStart && s.cur.start == 0
  }

  /** Reading "start-end" from a line start. */
  lemma FoldBounds(s: State, r: Range)
    requires AtLine(s) && NonNeg(r)
    ensures Fold(s, Dec(r.start) + "-" + Dec(r.end))
         == Some(s.(field := FEnd, cur := Range(r.start, r.end, s.cur.total)))
  {
    var t := s.(cur := Range(r.start, 0, s.cur.total), field := FEnd);
    FoldDec(s, r.start);
    FoldAppend(s, Dec(r.start), "-");
    FoldChar(SetField(s, r.start), '-');
    assert Fold(s, Dec(r.start) + "-") == Some(Zero(SetField(s, r.start).(field := FEnd)));
    FoldAppend(s, Dec(r.start) + "-", Dec(r.end));
    FoldDec(Zero(SetField(s, r.start).(field := FEnd)), r.end);
  }

  lemma FoldNumbers(s: State, r: Range)
    requires AtLine(s) && NonNeg(r)
    ensures Fold(s, Dec(r.start) + "-" + Dec(r.end) + "/" + Dec(r.total)) == Some(s.(field := FTotal, cur := r))
  {
    var front := Dec(r.start) + "-" + Dec(r.end);
    var t := s.(field := FEnd, cur := Range(r.start, r.end, s.cur.total));
    FoldBounds(s, r);
    FoldAppend(s, front, "/");
    FoldChar(t, '/');
    assert Fold(s, front + "/") == Some(Zero(t.(field := FTotal)));
    FoldAppend(s, front + "/", Dec(r.total));
    FoldDec(Zero(t.(field := FTotal)), r.total);
  }

  lemma FoldLine(s: State, r: Range)
    requires AtLine(s) && NonNeg(r)
    ensures Fold(s, Line(r)) == (if LineOk(r, s.range.total)
                                 then Some(Zero(TakeLine(s.(field := FTotal, cur := r)).(field := FStart)))
                                 else None)
  {
    var front := Dec(r.start) + "-" + Dec(r.end) + "/" + Dec(r.total);
    FoldNumbers(s, r);
    FoldAppend(s, front, "\n");
    FoldChar(s.(field := FTotal, cur := r), '\n');
  }

  lemma TextPush(a: seq<Range>, r: Range)
    ensures Text(a + [r]) == Text(a) + Line(r)
  {
    assert (a + [r])[..|a|] == a;
  }

  lemma {:induction false} TextAppend(a: seq<Range>, b: seq<Range>)
    ensures Text(a + b) == Text(a) + Text(b)
  {
    if b == [] {
      assert a + b == a;
    } else {
      var front, last := b[..|b| - 1], b[|b| - 1];
      TextAppend(a, front);
      TextPush(a + front, last);
      assert a + b == a + front + [last];
      Assoc(Text(a), Text(front), Line(last));
    }
  }

  lemma TextOne(r: Range)
    ensures Text([r]) == Line(r)
  {
    assert [r][..0] == [];
    assert Text([r][..0]) == [];
  }

  lemma TextCons(rs: seq<Range>)
    requires rs != []
    ensures Text(rs) == Line(rs[0]) + Text(rs[1..])
  {
    assert rs == [rs[0]] + rs[1..];
    TextAppend([rs[0]], rs[1..]);
    TextOne(rs[0]);
  }

  /** The character reader is where the list pass is. */
  predicate Tracks(s: State, p: Pass) {
    && AtLine(s)
    && s.range == p.range && s.found == p.found && !s.complete
    && s.out == Text(p.out)
  }

  lemma InsertText(p: Pass, r: Range)
    ensures var out := p.out + (if p.found then [] else [p.range]) + [r];
            Text(out) == Text(p.out) + (if p.found then [] else Line(p.range)) + Line(r)
  {
    if p.found {
      assert p.out + [] == p.out;
      assert Text(p.out) + [] == Text(p.out);
      TextPush(p.out, r);
    } else {
      TextPush(p.out, p.range);
      TextPush(p.out + [p.range], r);
    }
  }

  lemma TakeLineTracks(s: State, p: Pass, r: Range)
    requires Tracks(s, p)
    ensures Tracks(Zero(TakeLine(s.(field := FTotal, cur := r)).(field := FStart)), MergeStep(p, r))
  {
    TextPush(p.out, r);
    InsertText(p, r);
    var t := TakeLine(s.(field := FTotal, cur := r));
    assert t.out == Text(MergeStep(p, r).out);
  }

  predicate Readable(rs: seq<Range>, total: int) {
    forall r | r in rs :: LineOk(r, total)
  }

  /** Reading the lines of `rs` makes the pass over `rs`, unless a line fails the reader's test. */
  lemma {:induction false} FoldText(s: State, p: Pass, rs: seq<Range>)
    requires Tracks(s, p) && forall r | r in rs :: NonNeg(r)
    ensures Readable(rs, p.range.total) ==>
              Fold(s, Text(rs)).Some? && Tracks(Fold(s, Text(rs)).value, MergeFrom(p, rs))
    ensures !Readable(rs, p.range.total) ==> Fold(s, Text(rs)) == None
    decreases |rs|
  {
    if rs != [] {
      var r := rs[0];
      assert r in rs;
      TextCons(rs);
      FoldLine(s, r);
      FoldAppend(s, Line(r), Text(rs[1..]));
      assert Readable(rs, p.range.total) <==> LineOk(r, p.range.total) && Readable(rs[1..], p.range.total) by {
        assert rs == [r] + rs[1..];
      }
      if LineOk(r, p.range.total) {
        TakeLineTracks(s, p, r);
        assert MergeStep(p, r).range.total == p.range.total;
        FoldText(Zero(TakeLine(s.(field := FTotal, cur := r)).(field := FStart)), MergeStep(p, r), rs[1..]);
      }
    }
  }

  lemma StoredReadable(rs: seq<Range>, total: int)
    requires Stored(rs, total)
    ensures forall r | r in rs :: NonNeg(r)
    ensures Readable(rs, total) <==> forall r | r in rs :: r.start != r.end
  {
    assert forall r | r in rs :: Accepted(r, total);
  }

  /** A whole state file read in one buffer: the new text is that of the merged list, and the file
      is refused exactly when an earlier segment left a range of a single byte. */
  lemma MergeText(rs: seq<Range>, n: Range, total: int)
    requires Stored(rs, total) && Accepted(n, total)
    ensures Chunk(Initial(n), Text(rs), true).Some? <==> forall r | r in rs :: r.start != r.end
    ensures Chunk(Initial(n), Text(rs), true).Some? ==>
              var s := Chunk(Initial(n), Text(rs), true).value;
              s.out == Text(Merge(rs, n).ranges) && s.complete == Merge(rs, n).complete
  {
    StoredReadable(rs, total);
    MergeIsUnion(rs, n, total);
    var p0 := Pass([], n, false);
    assert Zero(Initial(n)) == Initial(n);
    FoldText(Initial(n), p0, rs);
    if Readable(rs, total) {
      var p := MergeFrom(p0, rs);
      TextPush(p.out, p.range);
    }
  }

  /** A segment of one byte that touches no other is recorded, and from then on every merge into
      this session fails. */
  lemma IsolatedByteJams(rs: seq<Range>, b: int, m: Range, total: int)
    requires Stored(rs, total) && 0 <= b < total && Accepted(m, total)
    requires !Covers(rs, b - 1) && !Covers(rs, b) && !Covers(rs, b + 1)
    ensures var after := Merge(rs, Range(b, b, total)).ranges;
            Chunk(Initial(m), Text(after), true) == None
  {
    var n := Range(b, b, total);
    var after := Merge(rs, n).ranges;
    MergeIsUnion(rs, n, total);
    assert Covers(after, b) && !Covers(after, b - 1) && !Covers(after, b + 1);
    CoversWitness(after, b);
    var i :| 0 <= i < |after| && Has(after[i], b);
    CoversWitness(after, b - 1);
    CoversWitness(after, b + 1);
    assert !Has(after[i], b - 1) && !Has(after[i], b + 1);
    assert after[i] in after && after[i].start == after[i].end;
    MergeText(after, m, total);
  }

  /** Digits of the pending number read before a buffer ends are lost when the next call resets it:
      the number comes out right only if they were worth nothing. */
  lemma {:induction false} ResumeLosesDigits(s: State, ds: string)
    requires FieldValue(s) >= 0 && forall c | c in ds :: IsDigit(c)
    ensures Fold(s, ds).Some? && Fold(Zero(s), ds).Some?
    ensures Fold(Zero(s), ds) == Fold(s, ds) <==> FieldValue(s) == 0
  {
    ResumeDeficit(s, ds);
  }

  lemma {:induction false} ResumeDeficit(s: State, ds: string)
    requires FieldValue(s) >= 0 && forall c | c in ds :: IsDigit(c)
    ensures Fold(s, ds).Some? && Fold(Zero(s), ds).Some?
    ensures var t, z := Fold(s, ds).value, Fold(Zero(s), ds).value;
            z == SetField(t, FieldValue(z)) && t.field == s.field
            && FieldValue(t) - FieldValue(z) >= FieldValue(s)
            && (FieldValue(s) == 0 ==> t == z)
  {
    if ds != [] {
      ResumeDeficit(s, ds[..|ds| - 1]);
      assert IsDigit(ds[|ds| - 1]);
    }
  }
}
