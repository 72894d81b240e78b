/** Which bytes the state file claims after a merge, for every text, new range and buffer size. */
module RangeFileClaims {
  import opened Ranges
  import opened RangeText
  import opened RangeTextProofs
  import opened RangeFile
  import opened RangeFileProofs
  import opened RangeFileSeen
  import opened RangeFileSkips
  import opened RangeFileCuts
  import opened RangeFileLines
  import opened Wrappers

  // ------------------------------------------------------ the lines that are read

  /** The values of the lines the reader comes to the end of. */
  function LinesOf(s: State, text: string): seq<Range> {
    if text == [] then []
    else
      var front, t := text[..|text| - 1], Fold(s, text[..|text| - 1]);
      LinesOf(s, front) + if text[|text| - 1] == '\n' && t.Some? then [t.value.cur] else []
  }

  /** Between two lines or inside one, the reader has made the pass. */
  predicate Follows(s: State, p: Pass) {
    s.range == p.range && s.found == p.found && !s.complete && s.out == Text(p.out)
  }

  lemma StepFollows(s: State, p: Pass, c: char)
    requires Follows(s, p) && Step(s, c).Some? && NonNeg(s.cur)
    ensures var t := Step(s, c).value;
            && NonNeg(t.cur) && t.range.total == s.range.total
            && if c == '\n' then LineOk(s.cur, s.range.total) && Follows(t, MergeStep(p, s.cur)) else Follows(t, p)
  {
    if c == '\n' {
      var atLine := s.(field := FStart, cur := Range(0, 0, 0));
      TakeLineTracks(atLine, p, s.cur);
      assert atLine.(field := FTotal, cur := s.cur) == s;
    }
  }

  predicate Followed(n: Range, t: State, l: seq<Range>) {
    && Follows(t, MergeFrom(Pass([], n, false), l)) && NonNeg(t.cur) && t.range.total == n.total
    && forall r | r in l :: LineOk(r, n.total) && NonNeg(r)
  }

  lemma {:induction false} LinesFollowed(n: Range, text: string)
    requires Fold(Initial(n), text).Some?
    ensures Followed(n, Fold(Initial(n), text).value, LinesOf(Initial(n), text))
  {
    if text != [] {
      var front, c := text[..|text| - 1], text[|text| - 1];
      LinesFollowed(n, front);
      NextFollowed(n, Fold(Initial(n), front).value, LinesOf(Initial(n), front), c);
    }
  }

  lemma NextFollowed(n: Range, s: State, l: seq<Range>, c: char)
    requires Followed(n, s, l) && Step(s, c).Some?
    ensures Followed(n, Step(s, c).value, l + if c == '\n' then [s.cur] else [])
  {
    var p0 := Pass([], n, false);
    var p := MergeFrom(p0, l);
    StepFollows(s, p, c);
    if c == '\n' {
      MergeFromAppend(p0, l, [s.cur]);
      OneStep(p, s.cur);
    } else {
      assert l + [] == l;
    }
  }

  /** What is left after a merge that is not refused is the print of the lines read, as `Printout` says. */
  lemma MergedAsRead(text: string, n: Range, cap: nat)
    requires cap > 0
    ensures var o, seen := MergeFile(text, n, cap, true), SeenBy(text, n, cap);
            if Chunk(Initial(n), seen.0, seen.1).None? then o.Corrupt?
            else o == Printout(LinesOf(Initial(n), seen.0), n, seen.1)
  {
    var seen := SeenBy(text, n, cap);
    StateFileIsSeen(text, n, cap);
    assert Zero(Initial(n)) == Initial(n);
    if Chunk(Initial(n), seen.0, seen.1).Some? {
      LinesFollowed(n, seen.0);
      var p := MergeFrom(Pass([], n, false), LinesOf(Initial(n), seen.0));
      TextPush(p.out, p.range);
    }
  }

  // --------------------------------------------------------- bytes claimed

  predicate Touches(a: Range, b: Range) {
    b.start <= a.end + 1 && a.start <= b.end + 1
  }

  /** One line met by the pass, on any list: its bytes are claimed unless it touches a range that was written
      already. */
  lemma StepClaims(p: Pass, cur: Range, x: int)
    ensures PassCovers(MergeStep(p, cur), x)
            <==> PassCovers(p, x) || (Has(cur, x) && !(p.found && Touches(p.range, cur)))
  {
    CoversAppend(p.out, [cur], x);
    CoversAppend(p.out, [p.range], x);
    CoversAppend(p.out + [p.range], [cur], x);
    assert p.out + [] == p.out;
  }

  /** Line j is absorbed by the new range, and that range is not written any more. */
  predicate Dropped(l: seq<Range>, n: Range, ended: bool, j: nat)
    requires j < |l|
  {
    var p := PassAt(l, n, j);
    Touches(p.range, l[j]) && (p.found || !(ended || PassAt(l, n, |l|).found))
  }

  /** The list that `Printout` prints. */
  function Shown(l: seq<Range>, n: Range, ended: bool): seq<Range> {
    if ended then Merge(l, n).ranges else MergeFrom(Pass([], n, false), l).out
  }

  lemma PassNext(l: seq<Range>, n: Range, k: nat)
    requires k < |l|
    ensures PassAt(l, n, k + 1) == MergeStep(PassAt(l, n, k), l[k])
  {
    assert l[..k + 1] == l[..k] + [l[k]];
    MergeFromAppend(Pass([], n, false), l[..k], [l[k]]);
    OneStep(PassAt(l, n, k), l[k]);
  }

  lemma {:induction false} FoundStays(l: seq<Range>, n: Range, j: nat, k: nat)
    requires j <= k <= |l| && PassAt(l, n, j).found
    ensures PassAt(l, n, k).found
    decreases k
  {
    if j < k {
      FoundStays(l, n, j, k - 1);
      PassNext(l, n, k - 1);
    }
  }

  lemma {:induction false} PassClaims(l: seq<Range>, n: Range, k: nat, x: int)
    requires k <= |l| && !Has(n, x)
    ensures PassCovers(PassAt(l, n, k), x)
            <==> exists j ::
                   0 <= j < k && Has(l[j], x)
                   && !(PassAt(l, n, j).found && Touches(PassAt(l, n, j).range, l[j]))
  {
    if k == 0 {
      assert l[..0] == [];
    } else {
      PassClaims(l, n, k - 1, x);
      PassNext(l, n, k - 1);
      StepClaims(PassAt(l, n, k - 1), l[k - 1], x);
    }
  }

  lemma {:induction false} OutClaims(l: seq<Range>, n: Range, k: nat, x: int)
    requires k <= |l| && !Has(n, x) && !PassAt(l, n, k).found
    ensures Covers(PassAt(l, n, k).out, x)
            <==> exists j :: 0 <= j < k && Has(l[j], x) && !Touches(PassAt(l, n, j).range, l[j])
  {
    if k == 0 {
      assert l[..0] == [];
    } else {
      PassNext(l, n, k - 1);
      OutClaims(l, n, k - 1, x);
      CoversAppend(PassAt(l, n, k - 1).out, [l[k - 1]], x);
    }
  }

  /** A byte that is not new is claimed exactly if it stands in a line that was read and not dropped. */
  lemma ClaimsOf(l: seq<Range>, n: Range, ended: bool, x: int)
    requires !Has(n, x)
    ensures Covers(Shown(l, n, ended), x) <==> exists j :: 0 <= j < |l| && Has(l[j], x) && !Dropped(l, n, ended, j)
  {
    var q := PassAt(l, n, |l|);
    assert l[..|l|] == l;
    if ended || q.found {
      CoversAppend(q.out, [q.range], x);
      PassClaims(l, n, |l|, x);
    } else {
      OutClaims(l, n, |l|, x);
    }
  }

  /** Every line that is read and not dropped speaks of bytes of `rs` and of new ones only. */
  ghost predicate Backed(l: seq<Range>, n: Range, ended: bool, rs: seq<Range>) {
    forall j, x | 0 <= j < |l| && !Dropped(l, n, ended, j) && Has(l[j], x) :: Covers(rs, x) || Has(n, x)
  }

  lemma BackedIff(l: seq<Range>, n: Range, ended: bool, rs: seq<Range>)
    ensures (forall x | Covers(Shown(l, n, ended), x) :: Covers(rs, x) || Has(n, x)) <==> Backed(l, n, ended, rs)
  {
    forall x | !Has(n, x)
      ensures Covers(Shown(l, n, ended), x) <==> exists j :: 0 <= j < |l| && Has(l[j], x) && !Dropped(l, n, ended, j)
    {
      ClaimsOf(l, n, ended, x);
    }
  }

  /** The completion flag is set only if the list claims every byte. */
  lemma CompleteClaimsAll(l: seq<Range>, n: Range, x: int)
    requires Merge(l, n).complete && 0 <= x < MergeFrom(Pass([], n, false), l).range.total
    ensures Covers(Merge(l, n).ranges, x)
  {
    var p := MergeFrom(Pass([], n, false), l);
    CoversAppend(p.out, [p.range], x);
  }

  /** The list that the file holds after a merge that was not refused. */
  function NewList(text: string, n: Range, cap: nat): seq<Range>
    requires cap > 0
  {
    var seen := SeenBy(text, n, cap);
    Shown(LinesOf(Initial(n), seen.0), n, seen.1)
  }

  /** For every state file, new range and buffer size, unless the merge is refused: the new file claims no
      byte that was neither recorded nor new exactly if every line that is read and not dropped is backed; then
      completeness is reported only if the bytes recorded and new are the whole file. */
  lemma NoFalseClaimIff(rs: seq<Range>, n: Range, cap: nat)
    requires cap > 0 && Accepted(n, n.total)
    requires var seen := SeenBy(Text(rs), n, cap); Chunk(Initial(n), seen.0, seen.1).Some?
    ensures var o, list := MergeFile(Text(rs), n, cap, true), NewList(Text(rs), n, cap);
            var seen := SeenBy(Text(rs), n, cap);
            && !o.Corrupt? && o.file == Text(list) && (forall r | r in list :: NonNeg(r))
            && ((forall x | Covers(list, x) :: Covers(rs, x) || Has(n, x))
                <==> Backed(LinesOf(Initial(n), seen.0), n, seen.1, rs))
            && (o.Complete? ==> forall x | 0 <= x < n.total :: Covers(list, x))
  {
    var seen := SeenBy(Text(rs), n, cap);
    var l := LinesOf(Initial(n), seen.0);
    MergedAsRead(Text(rs), n, cap);
    BackedIff(l, n, seen.1, rs);
    LinesAre(n, seen.0);
    PassNonNeg(Pass([], n, false), l);
    if MergeFile(Text(rs), n, cap, true).Complete? {
      RangeKept(Pass([], n, false), l);
      forall x | 0 <= x < n.total ensures Covers(Merge(l, n).ranges, x) {
        CompleteClaimsAll(l, n, x);
      }
    }
  }

  lemma LinesAre(n: Range, text: string)
    requires Fold(Initial(n), text).Some?
    ensures forall r | r in LinesOf(Initial(n), text) :: LineOk(r, n.total) && NonNeg(r)
  {
    LinesFollowed(n, text);
  }
}
