/** The state file rewritten in place through the split merge buffer (ngx_media_upload_merge_ranges). */
module RangeFile {
  import opened Ranges
  import opened RangeText
  import opened Wrappers

  /** NGX_OFF_T_LEN: the characters of the longest 64-bit decimal. */
  const OFF_T_LEN: nat := 20

  /** merge_buffer is cut in two: [out_buf | in_buf]. */
  function OutCap(mergeBufferSize: nat): nat {
    mergeBufferSize / 2 + OFF_T_LEN * 3 + 2 + 1
  }

  function InCap(mergeBufferSize: nat): int {
    mergeBufferSize - OutCap(mergeBufferSize)
  }

  /** Which merge_buffer_size leaves room for reading, and which makes out_buf end behind merge_buffer. */
  lemma SmallestBuffer(mergeBufferSize: nat)
    ensures InCap(mergeBufferSize) > 0 <==> mergeBufferSize >= 127
    ensures OutCap(mergeBufferSize) > mergeBufferSize <==> mergeBufferSize < 125
  {
  }

  function Min(a: nat, b: nat): nat {
    if a < b then a else b
  }

  // -------------------------------------------------------------- the file

  /** A write of `buf` at `pos` over existing bytes, extending the file if need be. */
  function Overlay(data: string, pos: nat, buf: string): (r: string)
    requires pos <= |data|
    ensures |r| == if pos + |buf| < |data| then |data| else pos + |buf|
  {
    data[..pos] + buf + (if pos + |buf| < |data| then data[pos + |buf|..] else [])
  }

  lemma OverlayNothing(data: string, pos: nat)
    requires pos <= |data|
    ensures Overlay(data, pos, []) == data
  {
  }

  function Moved(writeMoves: bool, buf: string): nat {
    if writeMoves then |buf| else 0
  }

  /** ngx_file_t with ngx_read_file and ngx_write_file. Both are positioned, and reading moves
      `offset` forward. Whether writing does too is `writeMoves`: the part handlers of the module
      rely on it, the loop below was written as if it did not. */
  class File {
    const writeMoves: bool
    var data: string
    var offset: nat

    constructor (data: string, writeMoves: bool)
      ensures this.data == data && offset == 0 && this.writeMoves == writeMoves
    {
      this.data, offset, this.writeMoves := data, 0, writeMoves;
    }

    method Read(n: nat, pos: nat) returns (buf: string)
      requires pos + n <= |data|
      modifies this`offset
      ensures buf == data[pos..pos + n] && offset == old(offset) + n
    {
      buf := data[pos..pos + n];
      offset := offset + n;
    }

    method Write(buf: string, pos: nat)
      requires pos <= |data|
      modifies this
      ensures data == Overlay(old(data), pos, buf) && offset == old(offset) + Moved(writeMoves, buf)
    {
      data := Overlay(data, pos, buf);
      if writeMoves {
        offset := offset + |buf|;
      }
    }

    method Truncate(size: nat)
      requires size <= |data|
      modifies this`data
      ensures data == old(data)[..size]
    {
      data := data[..size];
    }
  }

  // --------------------------------------------------- the loop, on values

  /** NGX_OK, NGX_AGAIN and NGX_ERROR, with the file left behind. */
  datatype Outcome = Complete(file: string) | More(file: string) | Corrupt(file: string)

  datatype Rc = Ok | Again | Error

  function RcOf(o: Outcome): Rc {
    match o
    case Complete(_) => Ok
    case More(_) => Again
    case Corrupt(_) => Error
  }

  /** The reader, seen from the loop: state, buffer, and whether it is the last one. */
  type Reader = (State, string, bool) -> Option<State>

  /** What a buffer of the reader starts from: nothing printed, the pending number reset. */
  function Resume(s: State): State {
    Zero(s).(out := [])
  }

  /** What one turn of the loop reads. */
  function TurnChunk(data: string, size: nat, offset: nat, cap: nat): string
    requires size <= |data| && cap > 0
  {
    if offset < size then data[offset..offset + Min(size - offset, cap)] else []
  }

  /** The loop, with `out` printed but not yet written and the reader about to continue from `s`.
      `size` is the size the file had when it was opened. */
  function Rewrite(read: Reader, data: string, size: nat, offset: nat, filePos: nat, out: string, s: State,
                   cap: nat, moves: bool): Outcome
    requires filePos <= |data| && size <= |data| && cap > 0
    decreases size - offset
  {
    var chunk := TurnChunk(data, size, offset, cap);
    var data1 := Overlay(data, filePos, out);
    var filePos1 := filePos + |out|;
    match read(s, chunk, offset + |chunk| == size)
    case None => Corrupt(data1)
    case Some(t) =>
      var offset1 := offset + |chunk| + Moved(moves, out);
      if offset1 < size then
        Rewrite(read, data1, size, offset1, filePos1, t.out, Resume(t), cap, moves)
      else
        Close(data1, size, filePos1, t.out, t.complete)
  }

  /** After the loop: the last output is written and what is left of the old text cut off. */
  function Close(data: string, size: nat, filePos: nat, out: string, complete: bool): Outcome
    requires filePos <= |data| && size <= |data|
  {
    var data1 := Overlay(data, filePos, out);
    var end := filePos + |out|;
    var data2 := if end < size then data1[..end] else data1;
    if complete then Complete(data2) else More(data2)
  }

  function MergeFile(data: string, n: Range, cap: nat, moves: bool): Outcome
    requires cap > 0
  {
    Rewrite(Chunk, data, |data|, 0, 0, [], Initial(n), cap, moves)
  }

  /** One turn of the loop that others follow, with what it reads and the values after it named. */
  lemma {:induction false} RewriteMore(read: Reader, data: string, size: nat, offset: nat, filePos: nat, out: string,
                                       s: State, cap: nat, moves: bool, chunk: string, data1: string, offset1: nat,
                                       filePos1: nat, t: State)
    requires filePos <= |data| && size <= |data| && cap > 0 && chunk == TurnChunk(data, size, offset, cap)
    requires data1 == Overlay(data, filePos, out) && filePos1 == filePos + |out|
    requires offset1 == offset + |chunk| + Moved(moves, out) && Some(t) == read(s, chunk, offset + |chunk| == size)
    requires offset1 < size
    ensures Rewrite(read, data, size, offset, filePos, out, s, cap, moves)
         == Rewrite(read, data1, size, offset1, filePos1, t.out, Resume(t), cap, moves)
  {
  }

  /** The last turn. */
  lemma {:induction false} RewriteLast(read: Reader, data: string, size: nat, offset: nat, filePos: nat, out: string,
                                       s: State, cap: nat, moves: bool, chunk: string, data1: string, filePos1: nat,
                                       t: Option<State>)
    requires filePos <= |data| && size <= |data| && cap > 0 && chunk == TurnChunk(data, size, offset, cap)
    requires data1 == Overlay(data, filePos, out) && filePos1 == filePos + |out|
    requires t == read(s, chunk, offset + |chunk| == size)
    requires t.None? || offset + |chunk| + Moved(moves, out) >= size
    ensures Rewrite(read, data, size, offset, filePos, out, s, cap, moves)
         == if t.None? then Corrupt(data1) else Close(data1, size, filePos1, t.value.out, t.value.complete)
  {
  }

  lemma {:induction false} RewriteTurn(read: Reader, data: string, size: nat, offset: nat, filePos: nat, out: string,
                                       s: State, cap: nat, moves: bool, chunk: string, data1: string, offset1: nat,
                                       filePos1: nat, t: Option<State>)
    requires filePos <= |data| && size <= |data| && cap > 0 && chunk == TurnChunk(data, size, offset, cap)
    requires data1 == Overlay(data, filePos, out) && filePos1 == filePos + |out|
    requires offset1 == offset + |chunk| + Moved(moves, out) && t == read(s, chunk, offset + |chunk| == size)
    ensures Rewrite(read, data, size, offset, filePos, out, s, cap, moves) ==
            if t.None? then Corrupt(data1)
            else if offset1 < size then
              Rewrite(read, data1, size, offset1, filePos1, t.value.out, Resume(t.value), cap, moves)
            else
              Close(data1, size, filePos1, t.value.out, t.value.complete)
  {
    if t.Some? && offset1 < size {
      RewriteMore(read, data, size, offset, filePos, out, s, cap, moves, chunk, data1, offset1, filePos1, t.value);
    } else {
      RewriteLast(read, data, size, offset, filePos, out, s, cap, moves, chunk, data1, filePos1, t);
    }
  }

  // ------------------------------------------------- the loop, on the file

  /** out_buf goes to the file, if it holds anything, and is emptied. */
  method WriteOut(file: File, ms: Merger, filePos: nat) returns (pos: nat)
    requires filePos <= |file.data|
    modifies file, ms`outBuf
    ensures file.data == Overlay(old(file.data), filePos, old(ms.outBuf))
    ensures file.offset == old(file.offset) + Moved(file.writeMoves, old(ms.outBuf))
    ensures pos == filePos + |old(ms.outBuf)| && ms.outBuf == []
  {
    OverlayNothing(file.data, filePos);
    pos := filePos;
    if ms.outBuf != [] {
      file.Write(ms.outBuf, filePos);
      pos := filePos + |ms.outBuf|;
    }
    ms.outBuf := [];
  }

  /** in_buf is filled from the offset on. */
  method ReadAhead(file: File, size: nat, cap: nat) returns (inBuf: string, lastBuf: bool)
    requires size <= |file.data| && cap > 0
    modifies file`offset
    ensures inBuf == TurnChunk(file.data, size, old(file.offset), cap)
    ensures file.offset == old(file.offset) + |inBuf| && lastBuf == (file.offset == size)
  {
    inBuf := [];
    if file.offset < size {
      var remaining := if size - file.offset > cap then cap else size - file.offset;
      inBuf := file.Read(remaining, file.offset);
    }
    lastBuf := file.offset == size;
  }

  /** The body of the loop: read ahead, write what the previous buffer gave, merge. */
  method Turn(file: File, ms: Merger, filePos: nat, size: nat, cap: nat)
    returns (ok: bool, pos: nat, ghost t: Option<State>)
    requires filePos <= |file.data| && size <= |file.data| && cap > 0
    modifies file, ms
    ensures file.data == Overlay(old(file.data), filePos, old(ms.outBuf))
    ensures pos == filePos + |old(ms.outBuf)|
    ensures var chunk := TurnChunk(old(file.data), size, old(file.offset), cap);
            && file.offset == old(file.offset) + |chunk| + Moved(file.writeMoves, old(ms.outBuf))
            && t == Chunk(Resume(old(ms.View())), chunk, old(file.offset) + |chunk| == size)
    ensures ok == t.Some?
    ensures ok ==> Resume(ms.View()) == Resume(t.value)
                   && ms.outBuf == t.value.out && ms.completeRanges == t.value.complete
  {
    var inBuf, lastBuf := ReadAhead(file, size, cap);
    t := Chunk(Resume(ms.View()), inBuf, lastBuf);
    pos := WriteOut(file, ms, filePos);
    ghost var s := ms.View();
    ok := ms.BufMergeRange(inBuf, lastBuf);
    if ok {
      ZeroedReads(s, inBuf, lastBuf, ms.View());
    }
  }

  /** The pending number does not matter to what a buffer leaves. */
  lemma ZeroedReads(s: State, buf: string, lastBuf: bool, u: State)
    requires Chunk(s, buf, lastBuf).Some? && Zero(u) == Zero(Chunk(s, buf, lastBuf).value)
    ensures var t := Chunk(s, buf, lastBuf).value;
            Resume(u) == Resume(t) && u.out == t.out && u.complete == t.complete
  {
    assert Zero(u).out == u.out && Zero(u).complete == u.complete;
  }

  method CloseFile(file: File, ms: Merger, filePos: nat, size: nat) returns (rc: Rc)
    requires filePos <= |file.data| && size <= |file.data|
    modifies file, ms`outBuf
    ensures var o := old(Close(file.data, size, filePos, ms.outBuf, ms.completeRanges));
            file.data == o.file && rc == RcOf(o)
    ensures rc == if ms.completeRanges then Ok else Again
  {
    var pos := WriteOut(file, ms, filePos);
    if pos < size {
      file.Truncate(pos);
    }
    rc := if ms.completeRanges then Ok else Again;
  }

  method MergeRanges(file: File, n: Range, mergeBufferSize: nat) returns (rc: Rc)
    requires file.offset == 0 && InCap(mergeBufferSize) > 0
    modifies file
    ensures file.data == MergeFile(old(file.data), n, InCap(mergeBufferSize), file.writeMoves).file
    ensures rc == RcOf(MergeFile(old(file.data), n, InCap(mergeBufferSize), file.writeMoves))
  {
    var cap: nat := InCap(mergeBufferSize);
    var size := |file.data|;
    var ms := new Merger(n);
    var filePos := 0;
    ghost var result := MergeFile(file.data, n, cap, file.writeMoves);
    while true
      invariant 0 <= filePos <= |file.data| && size <= |file.data|
      invariant file.offset < size || file.offset == 0
      invariant Rewrite(Chunk, file.data, size, file.offset, filePos, ms.outBuf, Resume(ms.View()),
                        cap, file.writeMoves) == result
      invariant fresh(ms)
      decreases size - file.offset
    {
      ghost var data0, offset0, filePos0 := file.data, file.offset, filePos;
      ghost var out0, s0 := ms.outBuf, Resume(ms.View());
      var ok, pos, t := Turn(file, ms, filePos, size, cap);
      filePos := pos;
      RewriteTurn(Chunk, data0, size, offset0, filePos0, out0, s0, cap, file.writeMoves,
                  TurnChunk(data0, size, offset0, cap), file.data, file.offset, filePos, t);
      if !ok {
        return Error;
      }
      if file.offset >= size {
        break;
      }
    }
    rc := CloseFile(file, ms, filePos, size);
  }
}
