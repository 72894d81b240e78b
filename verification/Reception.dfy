/** The body reader with the multipart parser as its data handler: the verdict on a request is that on its
    body, however recv cuts it and whatever buffers it goes through. */
module Reception {
  import opened Bytes
  import opened Matcher
  import opened Multipart
  import opened UploadParser
  import BodyReader

  function AsText(s: seq<Byte>): string {
    seq(|s|, i requires 0 <= i < |s| => s[i] as char)
  }

  /** The parser's verdict on the bytes so far. */
  function Verdict(cf: Conf, body: seq<Byte>): Rc
    requires ValidConf(cf)
  {
    Feed(cf, INITIAL, AsText(body)).rc
  }

  /** The handler's return code; `refused` is what the start handler answers when it refuses a part. */
  function RcOf(rc: Rc, refused: BodyReader.Rc): BodyReader.Rc {
    match rc
    case Ok => BodyReader.Ok
    case Malformed => BodyReader.Malformed
    case Refused => refused
  }

  /** The data handler is the parser. */
  ghost predicate ByParser(handler: BodyReader.Handler, cf: Conf, refused: BodyReader.Rc) {
    && ValidConf(cf) && refused != BodyReader.Ok
    && forall bufs :: handler.answers(bufs, false) == RcOf(Verdict(cf, Flat(bufs)), refused)
  }

  /** The parser in place answers so: one more buffer. */
  method Serve(ctx: UploadCtx, p: seq<Byte>, ghost bufs: seq<seq<Byte>>) returns (rc: Rc)
    requires ctx.Valid() && ctx.rc == Ok && p != []
    requires ValidConf(ctx.cf) && ctx.View() == Feed(ctx.cf, INITIAL, AsText(Flat(bufs)))
    modifies ctx
    ensures ctx.Valid() && ctx.View() == Feed(ctx.cf, INITIAL, AsText(Flat(bufs + [p])))
    ensures rc == Verdict(ctx.cf, Flat(bufs + [p])) == ctx.rc
  {
    FedMore(ctx.cf, bufs, p);
    rc := ctx.ProcessBuf(AsText(p));
  }

  lemma FedMore(cf: Conf, bufs: seq<seq<Byte>>, p: seq<Byte>)
    requires ValidConf(cf)
    ensures ValidParser(cf, INITIAL)
    ensures Feed(cf, INITIAL, AsText(Flat(bufs + [p]))) == Feed(cf, Feed(cf, INITIAL, AsText(Flat(bufs))), AsText(p))
  {
    FlatPush(bufs, p);
    assert AsText(Flat(bufs) + p) == AsText(Flat(bufs)) + AsText(p);
    FeedAppend(cf, INITIAL, AsText(Flat(bufs)), AsText(p));
  }

  /** A parser that fails has finished. */
  lemma {:induction false} FailedIsFinished(cf: Conf, bytes: string)
    requires ValidConf(cf)
    ensures var s := Feed(cf, INITIAL, bytes); s.rc != Ok ==> s.phase == Finish
  {
    if bytes != [] {
      FailedIsFinished(cf, bytes[..|bytes| - 1]);
    }
  }

  lemma VerdictStays(cf: Conf, part: seq<Byte>, whole: seq<Byte>)
    requires ValidConf(cf) && part <= whole && Verdict(cf, part) != Ok
    ensures Verdict(cf, whole) == Verdict(cf, part)
  {
    var rest := AsText(whole[|part|..]);
    assert AsText(whole) == AsText(part) + rest;
    FailedIsFinished(cf, AsText(part));
    FeedAppend(cf, INITIAL, AsText(part), rest);
    FeedFinished(cf, Feed(cf, INITIAL, AsText(part)), rest);
  }

  /** What became of a request whose body is `whole`. */
  predicate Decided(o: BodyReader.Outcome, cf: Conf, refused: BodyReader.Rc, whole: seq<Byte>)
    requires ValidConf(cf)
  {
    match Verdict(cf, whole)
    case Ok => o == BodyReader.Complete
    case Malformed => o == BodyReader.Status(400)
    case Refused => o == BodyReader.Status(BodyReader.StatusOf(refused))
  }

  /** More has to be awaited, or a recv of this event found the connection closed or broken. */
  ghost predicate Undecided(o: BodyReader.Outcome, connection: BodyReader.Connection, calls0: nat)
    reads connection
  {
    || o == BodyReader.Again
    || (o == BodyReader.Status(400) && calls0 < connection.calls && connection.last.Failed?)
  }

  /** No recv fails, and the peer sends at least as much as the body. */
  ghost predicate Steady(body: BodyReader.Body) {
    && (forall k: nat :: !body.connection.arrivals(k).Failed?)
    && (forall k: nat :: body.connection.arrivals(k).Ready? ==> body.connection.arrivals(k).n > 0)
    && |body.preread| + |body.connection.stream| >= body.contentLength
  }

  lemma DecidedBy(o: BodyReader.Outcome, cf: Conf, refused: BodyReader.Rc, handed: seq<Byte>, whole: seq<Byte>,
                  last: BodyReader.Rc)
    requires ValidConf(cf) && refused != BodyReader.Ok && handed <= whole
    requires last == RcOf(Verdict(cf, handed), refused)
    requires if last == BodyReader.Ok then o == BodyReader.Complete && handed == whole
             else o == BodyReader.Status(BodyReader.StatusOf(last))
    ensures Decided(o, cf, refused, whole)
  {
    if last != BodyReader.Ok {
      VerdictStays(cf, handed, whole);
    }
  }

  /** What an event comes to, the first one or a later one. */
  lemma Concluded(body: BodyReader.Body, o: BodyReader.Outcome, calls0: nat, ready: nat -> bool, cf: Conf,
                  refused: BodyReader.Rc)
    requires body.connection.Valid() && ByParser(body.handler, cf, refused) && body.handler.Valid()
    requires !body.handler.ended && body.handler.handed <= body.Received() && body.Answers(o, calls0, ready)
    requires !o.Status? ==> body.handler.last == BodyReader.Ok
    requires o == BodyReader.Complete ==>
               body.handler.handed == body.Received() && |body.Received()| == body.contentLength
    ensures forall whole | body.Received() <= whole && |whole| == body.contentLength ::
              Undecided(o, body.connection, calls0) || Decided(o, cf, refused, whole)
    ensures Steady(body) && o != BodyReader.Again ==> !Undecided(o, body.connection, calls0)
  {
    NothingYet(cf);
    forall whole | body.Received() <= whole && |whole| == body.contentLength
      ensures Undecided(o, body.connection, calls0) || Decided(o, cf, refused, whole)
    {
      if !Undecided(o, body.connection, calls0) {
        DecidedBy(o, cf, refused, body.handler.handed, whole, body.handler.last);
      }
    }
  }

  lemma NothingYet(cf: Conf)
    requires ValidConf(cf)
    ensures Verdict(cf, []) == Ok
  {
    assert AsText([]) == [];
  }

  /** The first event of a request. Whatever `recv` returns, and whatever buffers are chosen, the answer is the
      parser's verdict on the body, unless more has to be awaited or the connection is lost; and it is not lost
      as long as recv does not fail and the peer sends the whole body. */
  method Receive(body: BodyReader.Body, room: nat, bufferSize: nat, single: bool, ready: nat -> bool,
                 ghost cf: Conf, ghost refused: BodyReader.Rc) returns (o: BodyReader.Outcome)
    requires ByParser(body.handler, cf, refused) && !body.raw && bufferSize > 0 && |body.preread| < body.contentLength
    requires body.connection.Valid() && body.connection.taken == 0
    requires body.handler.Valid() && body.handler.bufs == [] && !body.handler.ended
    modifies body`first, body`buf, body`size, body`rest, body.handler, body.connection
    ensures body.connection.Valid() && (o == BodyReader.Again ==> body.Waiting())
    ensures body.Answers(o, old(body.connection.calls), ready)
    ensures forall whole | body.Received() <= whole && |whole| == body.contentLength ::
              Undecided(o, body.connection, old(body.connection.calls)) || Decided(o, cf, refused, whole)
    ensures Steady(body) && o != BodyReader.Again ==> !Undecided(o, body.connection, old(body.connection.calls))
  {
    ghost var calls0 := body.connection.calls;
    o := body.ReadBody(room, bufferSize, single, ready);
    Concluded(body, o, calls0, ready, cf, refused);
  }

  /** Every later event. */
  method Resume(body: BodyReader.Body, ready: nat -> bool, ghost cf: Conf, ghost refused: BodyReader.Rc)
    returns (o: BodyReader.Outcome)
    requires ByParser(body.handler, cf, refused) && !body.raw && body.Waiting()
    modifies body`first, body`buf, body`rest, body.handler, body.connection
    ensures body.connection.Valid() && (o == BodyReader.Again ==> body.Waiting())
    ensures body.Answers(o, old(body.connection.calls), ready)
    ensures forall whole | body.Received() <= whole && |whole| == body.contentLength ::
              Undecided(o, body.connection, old(body.connection.calls)) || Decided(o, cf, refused, whole)
    ensures Steady(body) && o != BodyReader.Again ==> !Undecided(o, body.connection, old(body.connection.calls))
  {
    ghost var calls0 := body.connection.calls;
    o := body.DoRead(ready);
    Concluded(body, o, calls0, ready, cf, refused);
  }
}
