/** What merge_ranges answers: whether the upload is complete, waits for more, or is refused. */
module RangeFileCodes {
  import opened Ranges
  import opened RangeText
  import opened RangeTextProofs
  import opened RangeFile
  import opened RangeFileProofs
  import opened RangeFileSeen
  import opened RangeFileSkips
  import opened Wrappers

  /** A state file that is merged as a whole: the code tells whether every byte is there. */
  lemma MergedCode(rs: seq<Range>, n: Range, total: int, cap: nat, moves: bool)
    requires Stored(rs, total) && Accepted(n, total) && total <= OFF_T_MAX && cap > 0
    requires forall r | r in rs :: r.start != r.end
    requires CutsAtDelimiters(Text(rs), cap, 0)
    requires if moves then Silent(Chunk, Text(rs), 0, Initial(n), cap) else cap >= OFF_T_LEN * 3
    ensures var rc := RcOf(MergeFile(Text(rs), n, cap, moves));
            rc == if forall x | 0 <= x < total :: Covers(rs, x) || Has(n, x) then Ok else Again
  {
    StateFileMerged(rs, n, total, cap, moves);
    CompleteIffWhole(rs, n, total);
  }

  /** A file of one buffer: a recorded range of one byte refuses it, and nothing else does. */
  lemma OneBufferCode(rs: seq<Range>, n: Range, total: int, cap: nat, moves: bool)
    requires Stored(rs, total) && Accepted(n, total) && cap > 0 && |Text(rs)| <= cap
    ensures var rc := RcOf(MergeFile(Text(rs), n, cap, moves));
            rc == if exists r | r in rs :: r.start == r.end then Error
                  else if forall x | 0 <= x < total :: Covers(rs, x) || Has(n, x) then Ok
                  else Again
  {
    var text, t := Text(rs), Chunk(Initial(n), Text(rs), true);
    MergeText(rs, n, total);
    CompleteIffWhole(rs, n, total);
    assert TurnChunk(text, |text|, 0, cap) == text;
    OverlayNothing(text, 0);
    RewriteLast(Chunk, text, |text|, 0, 0, [], Initial(n), cap, moves, text, text, 0, t);
  }

  /** Any text: the merge answers that something is wrong exactly if the reader refuses what the loop has seen
      of the text. */
  lemma RefusedIff(text: string, n: Range, cap: nat)
    requires cap > 0
    ensures var seen := SeenBy(text, n, cap);
            RcOf(MergeFile(text, n, cap, true)) == Error <==> Chunk(Initial(n), seen.0, seen.1) == None
  {
    StateFileIsSeen(text, n, cap);
  }

  /** What is needed of a state file and a buffer: the file fits, or it is readable and its buffers end at
      delimiters and are read before they are written over. */
  ghost predicate Mergeable(rs: seq<Range>, n: Range, cap: nat, moves: bool)
    requires cap > 0
  {
    || |Text(rs)| <= cap
    || (&& n.total <= OFF_T_MAX
        && (forall r | r in rs :: r.start != r.end)
        && CutsAtDelimiters(Text(rs), cap, 0)
        && if moves then Silent(Chunk, Text(rs), 0, Initial(n), cap) else cap >= OFF_T_LEN * 3)
  }

  lemma StoredCode(rs: seq<Range>, n: Range, cap: nat, moves: bool)
    requires cap > 0 && Stored(rs, n.total) && Accepted(n, n.total) && Mergeable(rs, n, cap, moves)
    ensures var rc := RcOf(MergeFile(Text(rs), n, cap, moves));
            rc == if exists r | r in rs :: r.start == r.end then Error
                  else if forall x | 0 <= x < n.total :: Covers(rs, x) || Has(n, x) then Ok
                  else Again
  {
    if |Text(rs)| <= cap {
      OneBufferCode(rs, n, n.total, cap, moves);
    } else {
      MergedCode(rs, n, n.total, cap, moves);
    }
  }

  /** merge_ranges on a state file that holds a list. */
  method MergeStored(file: File, ghost rs: seq<Range>, n: Range, mergeBufferSize: nat) returns (rc: Rc)
    requires file.offset == 0 && InCap(mergeBufferSize) > 0 && file.data == Text(rs)
    requires Stored(rs, n.total) && Accepted(n, n.total)
    requires Mergeable(rs, n, InCap(mergeBufferSize), file.writeMoves)
    modifies file
    ensures rc == Error <==> exists r | r in rs :: r.start == r.end
    ensures rc == Ok <==> (forall r | r in rs :: r.start != r.end)
                          && forall x | 0 <= x < n.total :: Covers(rs, x) || Has(n, x)
  {
    StoredCode(rs, n, InCap(mergeBufferSize), file.writeMoves);
    rc := MergeRanges(file, n, mergeBufferSize);
  }
}
