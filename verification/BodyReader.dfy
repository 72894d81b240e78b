/** Receiving a request body: what was read with the header, then the connection, buffer by buffer into
    the data handler (read_upload_client_request_body and its two helpers). */
module BodyReader {
  import opened Bytes
  import opened Wrappers

  /** A handler's return code, and the HTTP status a failure becomes. */
  datatype Rc = Ok | Malformed | TooLarge | IoError | NoMem | ScriptError | OtherError

  function StatusOf(rc: Rc): nat {
    match rc
    case Malformed => 400
    case TooLarge => 413
    case IoError => 503
    case _ => 500
  }

  /** What a call of recv finds: some bytes, none yet, or a closed or broken connection. */
  datatype Arrival = Ready(n: nat) | WouldBlock | Failed

  /** The peer's bytes and how many of them recv returned so far. */
  class Connection {
    const stream: seq<Byte>
    const arrivals: nat -> Arrival
    var calls: nat
    var taken: nat
    /** What the last recv came to: bytes, nothing yet, or a closed or broken connection. */
    ghost var last: Arrival

    ghost predicate Valid()
      reads this
    {
      taken <= |stream|
      && (calls > 0 ==>
            match last
            case Ready(n) => arrivals(calls - 1).Ready? && n > 0 && taken > 0
            case WouldBlock => arrivals(calls - 1).WouldBlock?
            case Failed => arrivals(calls - 1).Failed?
                           || (arrivals(calls - 1).Ready? && (arrivals(calls - 1).n == 0 || taken == |stream|)))
    }

    function Taken(): seq<Byte>
      requires Valid()
      reads this
    {
      stream[..taken]
    }

    constructor (stream: seq<Byte>, arrivals: nat -> Arrival)
      ensures Valid() && this.stream == stream && this.arrivals == arrivals && taken == 0
    {
      this.stream, this.arrivals, calls, taken := stream, arrivals, 0, 0;
      last := WouldBlock;
    }

    method Recv(room: nat) returns (a: Arrival, p: seq<Byte>)
      requires Valid() && room > 0
      modifies this
      ensures Valid() && calls == old(calls) + 1 && Taken() == old(Taken()) + p && |p| <= room
      ensures a.Ready? <==> p != []
      ensures a == last && (a.Ready? && |p| < room ==> |p| == arrivals(old(calls)).n || taken == |stream|)
    {
      a, p := arrivals(calls), [];
      calls := calls + 1;
      if a.Ready? {
        if a.n == 0 || taken == |stream| {
          a := Failed;
        } else {
          var n := if a.n < room then a.n else room;
          n := if n < |stream| - taken then n else |stream| - taken;
          p := stream[taken..taken + n];
          taken := taken + n;
        }
      }
      last := a;
    }
  }

  /** The next event has to be awaited; a final status; or the body is complete. */
  datatype Outcome = Again | Status(code: nat) | Complete

  datatype Turn = GoOn | BodyRead | Stop(o: Outcome)

  /** The data handler as the reader sees it: never an empty buffer, nothing after an error or the end, one
      end. What it answers may depend on all the buffers so far. */
  class Handler {
    const answers: (seq<seq<Byte>>, bool) -> Rc
    var bufs: seq<seq<Byte>>
    var ended: bool
    /** The last answer. */
    var last: Rc
    ghost var handed: seq<Byte>

    ghost predicate Valid()
      reads this
    {
      && handed == Flat(bufs)
      && last == if bufs == [] && !ended then Ok else answers(bufs, ended)
    }

    constructor (answers: (seq<seq<Byte>>, bool) -> Rc)
      ensures this.answers == answers && Valid() && bufs == [] && handed == [] && !ended && last == Ok
    {
      this.answers, bufs, handed, ended, last := answers, [], [], false, Ok;
    }

    method Data(p: seq<Byte>) returns (rc: Rc)
      requires Valid() && p != [] && !ended && last == Ok
      modifies this
      ensures Valid() && bufs == old(bufs) + [p] && handed == old(handed) + p && !ended
      ensures rc == last == answers(bufs, false)
    {
      FlatPush(bufs, p);
      bufs, handed := bufs + [p], handed + p;
      last := answers(bufs, ended);
      rc := last;
    }

    method End() returns (rc: Rc)
      requires Valid() && !ended && last == Ok
      modifies this
      ensures Valid() && bufs == old(bufs) && handed == old(handed) && ended
      ensures rc == last == answers(bufs, true)
    {
      ended := true;
      last := answers(bufs, ended);
      rc := last;
    }
  }

  class Body {
    const raw: bool
    const contentLength: int
    const handler: Handler
    const connection: Connection
    /** The part of the body that was read with the header. */
    const preread: seq<Byte>
    /** A buffer that is to be handed on before `buf`, the buffer that is being filled, and the number of
        body bytes that are still expected. */
    var first: seq<Byte>
    var buf: seq<Byte>
    var size: nat
    var rest: nat

    /** Everything that arrived. */
    function Received(): seq<Byte>
      requires connection.Valid()
      reads connection
    {
      preread + connection.Taken()
    }

    /** The bytes of the buffers that will be handed on next. */
    function Pending(): seq<Byte>
      reads this
    {
      first + buf
    }

    /** Between two events, as long as the body is neither complete nor given up. */
    ghost predicate Waiting()
      reads this, handler, connection
    {
      && connection.Valid() && handler.Valid() && !handler.ended && handler.last == Ok
      && |buf| <= size && size > 0 && rest > 0
      && handler.handed + Pending() == Received()
      && |Received()| + rest == contentLength
    }

    constructor (raw: bool, contentLength: int, preread: seq<Byte>, handler: Handler, connection: Connection)
      ensures this.raw == raw && this.contentLength == contentLength && this.preread == preread
      ensures this.handler == handler && this.connection == connection
    {
      this.raw, this.contentLength, this.preread := raw, contentLength, preread;
      this.handler, this.connection := handler, connection;
      first, buf, size, rest := [], [], 0, 0;
    }

    /** ngx_http_process_request_body: the buffers, and the end if nothing more is expected. */
    method ProcessBody() returns (rc: Rc)
      requires buf != [] && handler.Valid() && !handler.ended && handler.last == Ok
      modifies handler
      ensures handler.Valid() && rc == handler.last
      ensures handler.handed <= old(handler.handed) + Pending()
      ensures rc == Ok ==> handler.handed == old(handler.handed) + Pending()
      ensures rc == Ok ==> handler.ended == (raw && rest == 0)
      ensures handler.ended ==> raw && rest == 0
    {
      ghost var before := handler.handed;
      rc := Ok;
      if first != [] {
        rc := handler.Data(first);
      }
      assert before + first + buf == before + (first + buf) && before + first <= before + first + buf;
      if rc == Ok {
        rc := handler.Data(buf);
        if rc == Ok && raw && rest == 0 {
          rc := handler.End();
        }
      }
    }

    /** A full buffer is handed on and emptied. */
    method Flush() returns (rc: Rc)
      requires Waiting() && |buf| == size
      modifies this`first, this`buf, handler
      ensures if rc == Ok then Waiting() && |buf| < size
              else && handler.Valid() && rc == handler.last && handler.handed <= Received() && !handler.ended
                   && buf == old(buf)
    {
      rc := ProcessBody();
      if rc == Ok {
        first, buf := [], [];
        assert handler.handed + Pending() == handler.handed;
      }
    }

    /** One recv into the room that is left, never for more than is still expected. */
    method Fill() returns (a: Arrival)
      requires Waiting() && |buf| < size
      modifies this`buf, this`rest, connection
      ensures connection.Valid() && old(Received()) <= Received() && !handler.ended && |buf| <= size
      ensures handler.handed + Pending() == Received() && |Received()| + rest == contentLength
      ensures a.Ready? ==> buf != [] && rest < old(rest)
      ensures !a.Ready? ==> Waiting()
      ensures connection.calls == old(connection.calls) + 1 && connection.last == a
    {
      var room := if size - |buf| > rest then rest else size - |buf|;
      ghost var before, h := Received(), handler.handed;
      var p;
      a, p := connection.Recv(room);
      assert Received() == before + p;
      assert h + (first + (buf + p)) == h + (first + buf) + p;
      buf, rest := buf + p, rest - |p|;
    }

    /** What a call that reads says, `calls0` being the number of recvs before it. A request is failed for want of
        data only by a recv that finds the connection closed or broken; the next event is awaited only after a
        recv that found nothing, or found something when no more is ready. */
    ghost predicate Answers(o: Outcome, calls0: nat, ready: nat -> bool)
      requires connection.Valid()
      reads this, handler, connection
    {
      var heard := calls0 < connection.calls;
      && (o.Status? && handler.last != Ok ==>
            o.code == if handler.last == Malformed then 400 else if handler.last == TooLarge then 413
                      else if handler.last == IoError then 503 else 500)
      && (o.Status? && handler.last == Ok ==> o.code == 400 && |Received()| < contentLength)
      && (o.Status? && handler.last == Ok <==> heard && connection.last.Failed?)
      && (o == Again
          <==> heard && (connection.last.WouldBlock?
                         || (connection.last.Ready? && rest > 0 && |buf| < size && !ready(connection.calls))))
    }

    /** One turn of the loop: it goes on, the body is there, or it stops with an answer. */
    method Round(ready: nat -> bool) returns (t: Turn)
      requires Waiting()
      modifies this`first, this`buf, this`rest, handler, connection
      ensures connection.Valid() && handler.Valid() && old(Received()) <= Received()
      ensures t.Stop? ==> t.o != Complete && Answers(t.o, old(connection.calls), ready)
                          && !handler.ended && handler.handed <= Received() && |Received()| <= contentLength
      ensures t == Stop(Again) ==> Waiting()
      ensures if connection.calls == old(connection.calls) then
                t.Stop? && |buf| == size && handler.last != Ok && connection.last == old(connection.last)
              else connection.calls == old(connection.calls) + 1
      ensures !t.Stop? ==> connection.calls == old(connection.calls) + 1 && connection.last.Ready? && rest < old(rest)
      ensures t == GoOn ==> Waiting() && (|buf| == size || ready(connection.calls))
      ensures t == BodyRead ==>
                && buf != [] && rest == 0 && !handler.ended && handler.last == Ok
                && handler.handed + Pending() == Received() && |Received()| == contentLength
    {
      if |buf| == size {
        var rc := Flush();
        if rc != Ok {
          return Stop(Status(StatusOf(rc)));
        }
      }
      var a := Fill();
      if a == WouldBlock {
        return Stop(Again);
      }
      if !a.Ready? {
        return Stop(Status(400));
      }
      if rest == 0 {
        return BodyRead;
      }
      if |buf| < size && !ready(connection.calls) {
        return Stop(Again);
      }
      return GoOn;
    }

    /** ngx_http_do_read_upload_client_request_body; `ready` tells whether the connection has more after
        its n-th recv. */
    method DoRead(ready: nat -> bool) returns (o: Outcome)
      requires Waiting()
      modifies this`first, this`buf, this`rest, handler, connection
      ensures connection.Valid() && old(Received()) <= Received()
      ensures o == Again ==> Waiting()
      ensures handler.handed <= Received() && |Received()| <= contentLength
      ensures handler.ended ==> raw && |Received()| == contentLength
      ensures handler.Valid() && (!o.Status? ==> handler.last == Ok)
      ensures Answers(o, old(connection.calls), ready)
      ensures o == Complete ==> handler.handed == Received() && |Received()| == contentLength && handler.ended == raw
    {
      var t := GoOn;
      while t == GoOn
        invariant connection.Valid() && handler.Valid() && old(Received()) <= Received()
        invariant old(connection.calls) <= connection.calls
        invariant t == GoOn ==> Waiting() && (old(connection.calls) < connection.calls ==> connection.last.Ready?)
        invariant t == BodyRead ==>
                    && buf != [] && rest == 0 && !handler.ended && handler.last == Ok
                    && handler.handed + Pending() == Received() && |Received()| == contentLength
                    && old(connection.calls) < connection.calls && connection.last.Ready?
        invariant t.Stop? ==> t.o != Complete && Answers(t.o, old(connection.calls), ready) && !handler.ended
                              && handler.handed <= Received() && |Received()| <= contentLength
        invariant t == Stop(Again) ==> Waiting()
        decreases t == GoOn, rest
      {
        t := Round(ready);
      }
      if t.Stop? {
        return t.o;
      }
      var rc := ProcessBody();
      o := if rc == Ok then Complete else Status(StatusOf(rc));
    }

    /** What is read with the header and does not fill the body: where the rest goes. It follows in the
        same buffer if it fits there, else in a new one, into which the first part may be copied. */
    method Prepare(room: nat, bufferSize: nat, single: bool)
      requires |preread| < contentLength && bufferSize > 0
      requires connection.Valid() && connection.taken == 0
      requires handler.Valid() && handler.handed == [] && !handler.ended && handler.last == Ok
      modifies this`first, this`buf, this`size, this`rest
      ensures Waiting()
    {
      assert preread + connection.Taken() == preread;
      rest := contentLength - |preread|;
      if preread != [] && rest <= room {
        first, buf, size := [], preread, |preread| + room;
      } else {
        size := bufferSize + bufferSize / 4;
        var copy := rest < size && single;
        size := if copy then rest + |preread| else if rest < size then rest else bufferSize;
        first, buf := if copy then [] else preread, if copy then preread else [];
      }
      assert handler.handed + Pending() == preread;
    }

    /** ngx_http_read_upload_client_request_body. With more than the body already there, all of it is
        handed on. */
    method ReadBody(room: nat, bufferSize: nat, single: bool, ready: nat -> bool) returns (o: Outcome)
      requires bufferSize > 0
      requires connection.Valid() && connection.taken == 0
      requires handler.Valid() && handler.handed == [] && !handler.ended && handler.last == Ok
      modifies this`first, this`buf, this`size, this`rest, handler, connection
      ensures connection.Valid() && handler.handed <= Received()
      ensures o == Again ==> Waiting()
      ensures contentLength <= 0 ==> o == Status(400) && handler.handed == []
      ensures o == Complete ==> handler.handed == Received() && handler.ended == raw
      ensures contentLength > 0 ==> (|Received()| <= contentLength <==> |preread| <= contentLength)
      ensures o == Complete ==> |Received()| >= contentLength
      ensures handler.Valid() && (!o.Status? ==> handler.last == Ok) && (handler.ended ==> raw)
      ensures 0 < contentLength <= |preread| ==>
                connection.calls == old(connection.calls) && o == if handler.last == Ok then Complete else Status(500)
      ensures |preread| < contentLength ==> Answers(o, old(connection.calls), ready)
    {
      if contentLength <= 0 {
        return Status(400);
      }
      assert preread + connection.Taken() == preread;
      if |preread| >= contentLength {
        first, buf, size, rest := [], preread, |preread| + room, 0;
        var rc := ProcessBody();
        return if rc == Ok then Complete else Status(500);
      }
      Prepare(room, bufferSize, single);
      o := DoRead(ready);
    }
  }
}
