/** upload_process_buf in place: the context fields are updated byte by byte, and a byte that breaks a
    partial match is read again. */
module UploadParser {
  import opened Matcher
  import opened PartHeader
  import opened Multipart
  import opened Wrappers

  class UploadCtx {
    const cf: Conf
    var state: Phase
    var boundaryStart: nat
    var boundaryPos: nat
    var accumulator: string
    var attrs: Attrs
    var discardData: bool
    var output: string
    var events: seq<Event>
    var rc: Rc

    function View(): Parser
      reads this
    {
      Parser(state, boundaryStart, boundaryPos, accumulator, attrs, discardData, output, events, rc)
    }

    predicate Valid()
      reads this
    {
      ValidConf(cf) && ValidParser(cf, View())
    }

    constructor (cf: Conf)
      requires ValidConf(cf)
      ensures this.cf == cf && Valid() && View() == INITIAL
    {
      this.cf := cf;
      state, boundaryStart, boundaryPos := BoundarySeek, 2, 2;
      accumulator, attrs, discardData, output, events, rc := [], NO_ATTRS, false, [], [], Ok;
    }

    method FlushOutputBuffer()
      modifies this
      ensures View() == FlushOutput(cf, old(View()))
    {
      if output != [] {
        events := events + [FlushData(output)];
        if cf.handler(events) != Accept {
          discardData := true;
        }
        output := [];
      }
    }

    method Put(c: char)
      modifies this
      ensures View() == Putc(cf, old(View()), c)
    {
      if !discardData {
        output := output + [c];
        if |output| == cf.bufferSize {
          FlushOutputBuffer();
        }
      }
    }

    /** The partially matched lump of the boundary. */
    method PutMatched()
      requires ValidConf(cf) && boundaryStart <= boundaryPos <= |cf.delimiter|
      modifies this
      ensures View() == PutAll(cf, old(View()), cf.delimiter[old(boundaryStart)..old(boundaryPos)])
    {
      var q := boundaryStart;
      ghost var lump := cf.delimiter[boundaryStart..boundaryPos];
      while q != boundaryPos
        invariant boundaryStart == old(boundaryStart) && boundaryPos == old(boundaryPos)
        invariant boundaryStart <= q <= boundaryPos
        invariant View() == PutAll(cf, old(View()), lump[..q - boundaryStart])
      {
        ghost var next := lump[..q + 1 - boundaryStart];
        assert next[..|next| - 1] == lump[..q - boundaryStart] && next[|next| - 1] == cf.delimiter[q];
        Put(cf.delimiter[q]);
        q := q + 1;
      }
      assert lump[..q - boundaryStart] == lump;
    }

    method StartFile() returns (ok: bool)
      modifies this
      ensures View() == Start(cf, old(View())) && ok == (state == Data)
    {
      events := events + [StartPart(attrs)];
      var reply := cf.handler(events);
      if reply == Refuse {
        state, rc := Finish, Refused;
        return false;
      }
      if reply == Discard {
        discardData := true;
      }
      state, output := Data, [];
      return true;
    }

    method EndOfPart()
      modifies this
      ensures View() == EndPart(cf, old(View()))
    {
      state := AfterBoundary;
      boundaryPos := boundaryStart;
      FlushOutputBuffer();
      if !discardData {
        events := events + [FinishPart];
      } else {
        events := events + [AbortPart];
      }
      attrs, discardData := NO_ATTRS, false;
    }

    method HeaderLine(c: char) returns (ok: bool)
      requires state == Headers && rc == Ok
      modifies this
      ensures View() == HeaderByte(cf, old(View()), c) && ok == (rc == Ok)
    {
      if c == '\n' {
        if accumulator == [] {
          ok := StartFile();
          return;
        }
        var parsed := ParseHeader(accumulator, attrs);
        if parsed.None? {
          state, rc := Finish, Malformed;
          return false;
        }
        attrs, accumulator := parsed.value, [];
      } else if c != '\r' {
        if |accumulator| < cf.maxHeaderLen - 1 {
          accumulator := accumulator + [c];
        } else {
          state, rc := Finish, Malformed;
          return false;
        }
      }
      return true;
    }

    /** The data state on one byte; `again` is the `p--` that repeats the byte. */
    method DataStep(c: char) returns (again: bool)
      requires Valid() && state == Data
      modifies this
      ensures again ==> state == Data && boundaryPos == boundaryStart == 0 && Valid()
                        && old(boundaryPos != boundaryStart) && DataByte(cf, View(), c) == DataByte(cf, old(View()), c)
                        && rc == old(rc)
      ensures !again ==> View() == DataByte(cf, old(View()), c)
    {
      ghost var s0 := View();
      ghost var m0 := Match(boundaryStart, boundaryPos);
      if c == cf.delimiter[boundaryPos] {
        boundaryPos := boundaryPos + 1;
      } else if boundaryPos == boundaryStart {
        if c == '\n' {
          boundaryPos, boundaryStart := 2, 1;
        } else {
          PutOne(cf, s0, c);
          Put(c);
        }
      } else {
        ghost var r := Advance(cf.delimiter, Match(0, 0), c).1;
        PutAllAppend(cf, s0, cf.delimiter[boundaryStart..boundaryPos], r);
        PutMatched();
        boundaryStart, boundaryPos := 0, 0;
        PutAllMoved(cf, PutAll(cf, s0, cf.delimiter[m0.start..m0.pos]), r, 0, 0);
        return true;
      }
      if boundaryPos == |cf.delimiter| {
        EndOfPart();
      }
      return false;
    }

    /** The switch on the state; `goal` is what the byte makes of the context in the end. */
    method ProcessByte(c: char, ghost goal: Parser) returns (again: bool)
      requires Valid() && rc == Ok && goal == Step(cf, View(), c)
      modifies this
      ensures Valid()
      ensures again ==> state == Data && boundaryPos == boundaryStart && rc == Ok
                        && old(state) == Data && old(boundaryPos != boundaryStart)
                        && goal == Step(cf, View(), c)
      ensures !again ==> View() == goal
    {
      again := false;
      match state {
        case BoundarySeek =>
          boundaryPos := if c == cf.delimiter[boundaryPos] then boundaryPos + 1 else boundaryStart;
          if boundaryPos == |cf.delimiter| {
            state, boundaryStart, boundaryPos := AfterBoundary, 0, 0;
          }
        case AfterBoundary =>
          if c == '\n' {
            state, accumulator := Headers, [];
          } else if c == '-' {
            state := Finish;
          }
        case Headers =>
          var _ := HeaderLine(c);
        case Data =>
          again := DataStep(c);
        case Finish =>
      }
    }

    /** One turn of the loop: the byte at `p`, and the place of the next one. */
    method Consume(buf: string, p: nat, ghost s0: Parser, ghost goal: Parser) returns (next: nat, ghost goal': Parser)
      requires Valid() && rc == Ok && p < |buf| && ValidParser(cf, s0)
      requires goal == Step(cf, View(), buf[p]) && goal == Feed(cf, s0, buf[..p + 1])
      modifies this
      ensures Valid() && p <= next <= p + 1
      ensures next == p ==> rc == Ok && state == old(state) == Data && boundaryPos == boundaryStart
                            && old(boundaryPos != boundaryStart)
      ensures rc != Ok || next == |buf| ==> View() == Feed(cf, s0, buf)
      ensures rc == Ok && next < |buf|
              ==> goal' == Step(cf, View(), buf[next]) && goal' == Feed(cf, s0, buf[..next + 1])
    {
      var again := ProcessByte(buf[p], goal);
      next := if again then p else p + 1;
      if rc != Ok {
        RestIgnored(cf, s0, buf, next);
        goal' := goal;
      } else {
        goal' := NextGoal(cf, s0, buf, p, View(), goal, next);
      }
    }

    method ProcessBuf(buf: string) returns (result: Rc)
      requires Valid() && rc == Ok
      modifies this
      ensures Valid()
      ensures buf != [] ==> View() == Feed(cf, old(View()), buf) && result == rc
      ensures buf == [] ==> View() == old(View()) && result == (if state == Finish then Ok else Malformed)
    {
      if buf == [] {
        return if state == Finish then Ok else Malformed;
      }
      ghost var s0 := View();
      var p := 0;
      ghost var goal := FeedNext(cf, s0, buf, 0, s0);
      while p != |buf|
        invariant 0 <= p <= |buf| && Valid() && rc == Ok
        invariant p < |buf| ==> goal == Step(cf, View(), buf[p]) && goal == Feed(cf, s0, buf[..p + 1])
        invariant p == |buf| ==> View() == Feed(cf, s0, buf)
        decreases |buf| - p, if state == Data then boundaryPos - boundaryStart else 0
      {
        p, goal := Consume(buf, p, s0, goal);
        if rc != Ok {
          return rc;
        }
      }
      return Ok;
    }
  }

  lemma {:induction false} FeedNext(cf: Conf, s: Parser, buf: string, p: nat, t: Parser) returns (goal: Parser)
    requires ValidConf(cf) && ValidParser(cf, s) && p < |buf| && t == Feed(cf, s, buf[..p])
    ensures goal == Feed(cf, s, buf[..p + 1]) && goal == Step(cf, t, buf[p])
  {
    assert buf[..p + 1][..p] == buf[..p];
    goal := Step(cf, t, buf[p]);
  }

  /** The goal of the next turn: the same if the byte is repeated. */
  lemma {:induction false} NextGoal(cf: Conf, s: Parser, buf: string, p: nat, t: Parser, goal: Parser, next: nat)
    returns (goal': Parser)
    requires ValidConf(cf) && ValidParser(cf, s) && ValidParser(cf, t) && p < |buf| && p <= next <= p + 1
    requires goal == Feed(cf, s, buf[..p + 1])
    requires if next == p then goal == Step(cf, t, buf[p]) else goal == t
    ensures next < |buf| ==> goal' == Step(cf, t, buf[next])
    ensures next < |buf| ==> goal' == Feed(cf, s, buf[..next + 1])
    ensures next == |buf| ==> t == Feed(cf, s, buf)
  {
    if next == p {
      goal' := goal;
    } else if next < |buf| {
      goal' := FeedNext(cf, s, buf, next, t);
    } else {
      assert buf[..next] == buf;
      goal' := goal;
    }
  }

  /** After an error the rest of the buffer is not read, and would not change anything. */
  lemma {:induction false} RestIgnored(cf: Conf, s: Parser, buf: string, p: nat)
    requires ValidConf(cf) && ValidParser(cf, s) && p <= |buf|
    requires Feed(cf, s, buf[..p]).phase == Finish
    ensures Feed(cf, s, buf) == Feed(cf, s, buf[..p])
  {
    assert buf == buf[..p] + buf[p..];
    FeedAppend(cf, s, buf[..p], buf[p..]);
    FeedFinished(cf, Feed(cf, s, buf[..p]), buf[p..]);
  }

  lemma PutOne(cf: Conf, s: Parser, c: char)
    requires ValidConf(cf)
    ensures PutAll(cf, s, [c]) == Putc(cf, s, c)
  {
    assert [c][..0] == [];
  }
}
