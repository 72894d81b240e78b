/** upload_process_raw_buf: a request whose whole body is one file. */
module RawInput {
  import opened PartHeader
  import opened Multipart
  import opened PartInvariant
  import opened Wrappers

  /** started, discard_data and what the sinks were told. */
  datatype Raw = Raw(started: bool, discard: bool, events: seq<Event>)

  const UNTOUCHED := Raw(false, false, [])

  class RawCtx {
    const handler: Handler
    const attrs: Attrs
    var started: bool
    var discardData: bool
    var events: seq<Event>

    function View(): Raw
      reads this
    {
      Raw(started, discardData, events)
    }

    constructor (handler: Handler, attrs: Attrs)
      ensures this.handler == handler && this.attrs == attrs && View() == UNTOUCHED
    {
      this.handler, this.attrs, started, discardData, events := handler, attrs, false, false, [];
    }

    /** An empty buffer is the end of the body. Data goes on to the sink even after a refusal. */
    method ProcessRawBuf(buf: string) returns (rc: Rc)
      modifies this
      ensures View() == Fed(handler, attrs, old(View()), buf)
      ensures rc == if buf != [] && !started then Refused else Ok
    {
      if buf == [] {
        events := events + [if discardData then AbortPart else FinishPart];
        discardData := false;
        return Ok;
      }
      if !started {
        events := events + [StartPart(attrs)];
        var reply := handler(events);
        if reply == Refuse {
          return Refused;
        }
        if reply == Discard {
          discardData := true;
        }
        started := true;
      }
      events := events + [FlushData(buf)];
      if handler(events) != Accept {
        discardData := true;
      }
      return Ok;
    }
  }

  function Fed(handler: Handler, attrs: Attrs, s: Raw, buf: string): Raw {
    if buf == [] then Raw(s.started, false, s.events + [if s.discard then AbortPart else FinishPart])
    else
      var begun := s.events + [StartPart(attrs)];
      var s1 := if s.started then s else Raw(handler(begun) != Refuse, s.discard || handler(begun) == Discard, begun);
      if !s1.started then s1
      else
        var events := s1.events + [FlushData(buf)];
        Raw(true, s1.discard || handler(events) != Accept, events)
  }

  function FedAll(handler: Handler, attrs: Attrs, s: Raw, bufs: seq<string>): Raw {
    if bufs == [] then s else Fed(handler, attrs, FedAll(handler, attrs, s, bufs[..|bufs| - 1]), bufs[|bufs| - 1])
  }

  function Joined(bufs: seq<string>): string {
    if bufs == [] then [] else Joined(bufs[..|bufs| - 1]) + bufs[|bufs| - 1]
  }

  /** What a started part has taken. */
  ghost predicate Took(s: Raw, attrs: Attrs, data: string) {
    s.started && CurrentAttrs(s.events) == attrs && CurrentData(s.events) == data && Finished(s.events) == []
  }

  lemma FirstBuffer(handler: Handler, attrs: Attrs, buf: string)
    requires buf != [] && handler([StartPart(attrs)]) != Refuse
    ensures Took(Fed(handler, attrs, UNTOUCHED, buf), attrs, buf)
  {
    var begun := [StartPart(attrs)];
    assert [] + begun == begun;
    EventAppended([], StartPart(attrs));
    EventAppended(begun, FlushData(buf));
    assert [] + buf == buf;
  }

  lemma NextBuffer(handler: Handler, attrs: Attrs, s: Raw, data: string, buf: string)
    requires buf != [] && Took(s, attrs, data)
    ensures Took(Fed(handler, attrs, s, buf), attrs, data + buf)
  {
    EventAppended(s.events, FlushData(buf));
  }

  /** A started part, whatever its cut in buffers, has taken all the data so far. */
  lemma {:induction false} DataTaken(handler: Handler, attrs: Attrs, bufs: seq<string>)
    requires (forall i | 0 <= i < |bufs| :: bufs[i] != []) && bufs != []
    requires handler([StartPart(attrs)]) != Refuse
    ensures Took(FedAll(handler, attrs, UNTOUCHED, bufs), attrs, Joined(bufs))
    decreases |bufs|
  {
    var front, buf := bufs[..|bufs| - 1], bufs[|bufs| - 1];
    if front == [] {
      FirstBuffer(handler, attrs, buf);
      assert Joined(front) == [] && [] + buf == buf;
    } else {
      DataTaken(handler, attrs, front);
      NextBuffer(handler, attrs, FedAll(handler, attrs, UNTOUCHED, front), Joined(front), buf);
    }
  }

  function Flushes(bufs: seq<string>): seq<Event> {
    if bufs == [] then [] else Flushes(bufs[..|bufs| - 1]) + [FlushData(bufs[|bufs| - 1])]
  }

  /** What the sinks have been told after some buffers of a started part. */
  function Told(attrs: Attrs, bufs: seq<string>): seq<Event> {
    [StartPart(attrs)] + Flushes(bufs)
  }

  /** The part is discarded exactly if its start or one of its buffers was not accepted. */
  lemma {:induction false} DiscardedIff(handler: Handler, attrs: Attrs, bufs: seq<string>)
    requires (forall i | 0 <= i < |bufs| :: bufs[i] != []) && bufs != []
    requires handler([StartPart(attrs)]) != Refuse
    ensures var s := FedAll(handler, attrs, UNTOUCHED, bufs);
            && s.started && s.events == Told(attrs, bufs)
            && (s.discard <==> exists k | 0 <= k <= |bufs| :: handler(Told(attrs, bufs[..k])) != Accept)
    decreases |bufs|
  {
    var n := |bufs| - 1;
    var front, buf := bufs[..n], bufs[n];
    assert [] + [StartPart(attrs)] == [StartPart(attrs)];
    assert Told(attrs, []) == [StartPart(attrs)];
    assert Told(attrs, bufs) == Told(attrs, front) + [FlushData(buf)];
    assert forall k | 0 <= k <= n :: bufs[..k] == front[..k];
    assert bufs[..n + 1] == bufs && front[..n] == front && front[..0] == [];
    if n > 0 {
      DiscardedIff(handler, attrs, front);
    }
  }

  /** A refused start is reported at once, and no part is finished. */
  lemma StartRefused(handler: Handler, attrs: Attrs, buf: string)
    requires buf != [] && handler([StartPart(attrs)]) == Refuse
    ensures var s := Fed(handler, attrs, UNTOUCHED, buf);
            s == Raw(false, false, [StartPart(attrs)]) && Finished(s.events) == []
  {
    assert [] + [StartPart(attrs)] == [StartPart(attrs)];
    EventAppended([], StartPart(attrs));
  }

  /** The end makes it one finished part with the whole body, unless the start or a buffer was not accepted. */
  lemma WholeBodyIsOnePart(handler: Handler, attrs: Attrs, bufs: seq<string>)
    requires (forall i | 0 <= i < |bufs| :: bufs[i] != []) && bufs != []
    requires handler([StartPart(attrs)]) != Refuse
    ensures var s := FedAll(handler, attrs, UNTOUCHED, bufs);
            Finished(Fed(handler, attrs, s, []).events)
            == if forall k | 0 <= k <= |bufs| :: handler(Told(attrs, bufs[..k])) == Accept then
                 [Part(attrs, Joined(bufs))]
               else []
  {
    DataTaken(handler, attrs, bufs);
    DiscardedIff(handler, attrs, bufs);
    var s := FedAll(handler, attrs, UNTOUCHED, bufs);
    EventAppended(s.events, if s.discard then AbortPart else FinishPart);
  }
}
