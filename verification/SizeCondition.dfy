/** Exactly for which limits the size of the output buffer does not matter, on any request. */
module SizeCondition {
  import opened Matcher
  import opened PartHeader
  import opened Multipart
  import opened PartInvariant
  import opened FieldPrinter
  import opened RoundTrip
  import opened OutputChain
  import opened Forwarding
  import opened SizeIndependence
  import opened SizeDependence
  import opened Wrappers

  /** A field of this name can be passed on, and the body closed behind it. */
  predicate HasRoom(ru: Rules, name: string)
    requires IsDelimiter(ru.delimiter)
  {
    name != [] && ru.passes(name) && CleanName(name)
    && 2 * FirstFieldLen(ru, name) + |ru.delimiter| + 4 <= ru.maxBodyLen
  }

  ghost predicate SizesAgree(ru: Rules, maxHeaderLen: nat)
    requires IsDelimiter(ru.delimiter)
  {
    forall sizeA: nat, sizeB: nat, bytes | sizeA > 0 && sizeB > 0 ::
      SameOutcome(ru, Feed(ConfOf(ru, maxHeaderLen, sizeA), INITIAL, bytes),
                  Feed(ConfOf(ru, maxHeaderLen, sizeB), INITIAL, bytes))
  }

  // -------------------------------------------------------- no room for a field

  /** While a field is received the body is full. */
  predicate FullInField(ru: Rules, s: Parser)
    requires IsDelimiter(ru.delimiter)
  {
    s.phase == Data ==>
      Paid(ru, s) && (!s.discard && !After(ru, s.events).isFile && ru.maxBodyLen != 0 ==> Full(ru, Base(ru, s)))
  }

  lemma StartFull(ru: Rules, cf: Conf, s: Parser)
    requires Own(ru, cf) && s.phase == Headers && !s.discard && CleanName(s.attrs.fieldName)
    requires forall name :: !HasRoom(ru, name)
    ensures FullInField(ru, Start(cf, s))
  {
    var e := StartPart(s.attrs);
    AfterEvent(ru, s.events, e);
    AnswerIs(ru, s.events, e);
    EventAppended(s.events, e);
    if s.attrs.fieldName != [] {
      HeadIsLonger(ru, After(ru, s.events), s.attrs.fieldName);
    }
    assert !HasRoom(ru, s.attrs.fieldName);
  }

  lemma DataFull(ru: Rules, cf: Conf, s: Parser, c: char)
    requires Own(ru, cf) && FileSinkAccepts(ru) && ValidParser(cf, s) && s.phase == Data && FullInField(ru, s)
    ensures FullInField(ru, DataByte(cf, s, c))
  {
    var r := Advance(cf.delimiter, Match(s.boundaryStart, s.boundaryPos), c);
    PutDooms(ru, cf, s, r.1, PutAll(cf, s, r.1));
  }

  lemma {:induction false} AlwaysFull(ru: Rules, cf: Conf, bytes: string)
    requires Own(ru, cf) && FileSinkAccepts(ru) && forall name :: !HasRoom(ru, name)
    ensures FullInField(ru, Feed(cf, INITIAL, bytes))
  {
    if bytes != [] {
      var front, c := bytes[..|bytes| - 1], bytes[|bytes| - 1];
      AlwaysFull(ru, cf, front);
      RunLink(ru, cf, front);
      PartsAreClean(cf, front);
      var s := Feed(cf, INITIAL, front);
      if s.phase == Data {
        DataFull(ru, cf, s, c);
      } else if s.phase == Headers && c == '\n' && s.accumulator == [] {
        StartFull(ru, cf, s);
      } else if s.phase == Headers {
        HeaderByteKeeps(cf, s, c);
      }
    }
  }

  /** Without a limit, or with one that leaves no room, no field outgrows a body that is not full. */
  lemma {:induction false} AlwaysRoomy(ru: Rules, cf: Conf, bytes: string)
    requires Own(ru, cf) && FileSinkAccepts(ru) && (ru.maxBodyLen == 0 || forall name :: !HasRoom(ru, name))
    ensures Roomy(ru, cf, bytes)
  {
    if bytes != [] {
      AlwaysRoomy(ru, cf, bytes[..|bytes| - 1]);
      if ru.maxBodyLen != 0 {
        AlwaysFull(ru, cf, bytes[..|bytes| - 1]);
      }
    }
  }

  // ------------------------------------------------------------ the condition

  /** The size of the output buffer matters to no request if and only if there is no limit on the body, or one
      that leaves no room for the head of any field that is passed on and the closing delimiter. Names are
      considered that a printed header can carry. */
  lemma SizesAgreeIff(ru: Rules, maxHeaderLen: nat)
    requires IsDelimiter(ru.delimiter) && FileSinkAccepts(ru)
    requires (exists name :: HasRoom(ru, name)) ==>
               exists name :: HasRoom(ru, name) && Printable(ConfOf(ru, maxHeaderLen, 1), FormField(name, []))
    ensures SizesAgree(ru, maxHeaderLen) <==> ru.maxBodyLen == 0 || forall name :: !HasRoom(ru, name)
  {
    if ru.maxBodyLen == 0 || forall name :: !HasRoom(ru, name) {
      forall sizeA: nat, sizeB: nat, bytes | sizeA > 0 && sizeB > 0
        ensures SameOutcome(ru, Feed(ConfOf(ru, maxHeaderLen, sizeA), INITIAL, bytes),
                            Feed(ConfOf(ru, maxHeaderLen, sizeB), INITIAL, bytes))
      {
        AlwaysRoomy(ru, ConfOf(ru, maxHeaderLen, sizeA), bytes);
        RoomySizes(ru, maxHeaderLen, sizeA, sizeB, bytes);
      }
    } else {
      var name :| HasRoom(ru, name) && Printable(ConfOf(ru, maxHeaderLen, 1), FormField(name, []));
      var size, request := SizeDecides(ru, maxHeaderLen, name);
      assert !SameOutcome(ru, Feed(ConfOf(ru, maxHeaderLen, 1), INITIAL, request),
                          Feed(ConfOf(ru, maxHeaderLen, size), INITIAL, request));
    }
  }

  // ------------------------------------------------------- a buffer of one byte

  function BodyLen(ru: Rules, s: Parser): nat
    requires IsDelimiter(ru.delimiter)
  {
    After(ru, s.events).bodyLen
  }

  /** Nothing is ever taken off the account. */
  lemma EventGrows(ru: Rules, events: seq<Event>, e: Event)
    requires IsDelimiter(ru.delimiter)
    ensures After(ru, events).bodyLen <= After(ru, events + [e]).bodyLen
  {
    AfterEvent(ru, events, e);
  }

  lemma FlushGrows(ru: Rules, cf: Conf, s: Parser)
    requires IsDelimiter(ru.delimiter)
    ensures BodyLen(ru, s) <= BodyLen(ru, FlushOutput(cf, s))
  {
    EventGrows(ru, s.events, FlushData(s.output));
  }

  lemma {:induction false} PutAllGrows(ru: Rules, cf: Conf, s: Parser, out: string)
    requires IsDelimiter(ru.delimiter) && ValidConf(cf)
    ensures BodyLen(ru, s) <= BodyLen(ru, PutAll(cf, s, out))
  {
    if out != [] {
      var front := out[..|out| - 1];
      PutAllGrows(ru, cf, s, front);
      var u := PutAll(cf, s, front);
      FlushGrows(ru, cf, u.(output := u.output + [out[|out| - 1]]));
    }
  }

  lemma EndGrows(ru: Rules, cf: Conf, s: Parser)
    requires IsDelimiter(ru.delimiter)
    ensures BodyLen(ru, s) <= BodyLen(ru, EndPart(cf, s))
  {
    var u := s.(phase := AfterBoundary, boundaryPos := s.boundaryStart);
    var v := FlushOutput(cf, u);
    FlushGrows(ru, cf, u);
    EventGrows(ru, v.events, if v.discard then AbortPart else FinishPart);
  }

  lemma StepGrows(ru: Rules, cf: Conf, s: Parser, c: char)
    requires IsDelimiter(ru.delimiter) && ValidConf(cf) && ValidParser(cf, s)
    ensures BodyLen(ru, s) <= BodyLen(ru, Step(cf, s, c))
  {
    if s.phase == Data {
      var r := Advance(cf.delimiter, Match(s.boundaryStart, s.boundaryPos), c);
      PutAllGrows(ru, cf, s, r.1);
      EndGrows(ru, cf, PutAll(cf, s, r.1).(boundaryStart := r.0.start, boundaryPos := r.0.pos));
    } else if s.phase == Headers && c == '\n' && s.accumulator == [] {
      EventGrows(ru, s.events, StartPart(s.attrs));
    } else if s.phase == Headers {
      HeaderByteKeeps(cf, s, c);
    }
  }

  /** A field that outgrows the limit leaves it used up. */
  lemma OutgrownCharged(ru: Rules, cf: Conf, s: Parser, c: char)
    requires Own(ru, cf) && cf.bufferSize == 1 && FileSinkAccepts(ru) && ValidParser(cf, s) && !Room(ru, cf, s, c)
    requires Paid(ru, s)
    ensures ru.maxBodyLen != 0 && BodyLen(ru, Step(cf, s, c)) >= ru.maxBodyLen
  {
    var r := Advance(cf.delimiter, Match(s.boundaryStart, s.boundaryPos), c);
    var t := PutAll(cf, s, r.1);
    assert s.output == [] && t.output == [];
    PutAllAny(ru, cf, s, r.1);
    if BodyLen(ru, s) <= ru.maxBodyLen {
      PutAllCharged(ru, cf, s, r.1);
    } else {
      PutAllGrows(ru, cf, s, r.1);
    }
    EndGrows(ru, cf, t.(boundaryStart := r.0.start, boundaryPos := r.0.pos));
  }

  lemma DataPaid(ru: Rules, cf: Conf, s: Parser, c: char)
    requires Own(ru, cf) && FileSinkAccepts(ru) && ValidParser(cf, s) && s.phase == Data && Paid(ru, s)
    ensures DataByte(cf, s, c).phase == Data ==> Paid(ru, DataByte(cf, s, c))
  {
    var r := Advance(cf.delimiter, Match(s.boundaryStart, s.boundaryPos), c);
    PutDooms(ru, cf, s, r.1, PutAll(cf, s, r.1));
  }

  lemma {:induction false} AlwaysPaid(ru: Rules, cf: Conf, bytes: string)
    requires Own(ru, cf) && FileSinkAccepts(ru)
    ensures var s := Feed(cf, INITIAL, bytes); s.phase == Data ==> Paid(ru, s)
  {
    if bytes != [] {
      var front, c := bytes[..|bytes| - 1], bytes[|bytes| - 1];
      AlwaysPaid(ru, cf, front);
      var s := Feed(cf, INITIAL, front);
      if s.phase == Data {
        DataPaid(ru, cf, s, c);
      } else if s.phase == Headers && c == '\n' && s.accumulator == [] {
        EventAppended(s.events, StartPart(s.attrs));
      } else if s.phase == Headers {
        HeaderByteKeeps(cf, s, c);
      }
    }
  }

  lemma {:induction false} RoomyOrCharged(ru: Rules, cf: Conf, bytes: string)
    requires Own(ru, cf) && cf.bufferSize == 1 && FileSinkAccepts(ru)
    ensures Roomy(ru, cf, bytes)
            || (ru.maxBodyLen != 0 && BodyLen(ru, Feed(cf, INITIAL, bytes)) >= ru.maxBodyLen)
  {
    if bytes != [] {
      var front, c := bytes[..|bytes| - 1], bytes[|bytes| - 1];
      RoomyOrCharged(ru, cf, front);
      AlwaysPaid(ru, cf, front);
      var s := Feed(cf, INITIAL, front);
      StepGrows(ru, cf, s, c);
      if !Room(ru, cf, s, c) {
        OutgrownCharged(ru, cf, s, c);
      }
    }
  }

  /** A request that is passed on with a buffer of one byte comes to the same with a buffer of any size. */
  lemma SmallestDecides(ru: Rules, maxHeaderLen: nat, size: nat, bytes: string)
    requires IsDelimiter(ru.delimiter) && FileSinkAccepts(ru) && size > 0
    requires Close(ru, After(ru, Feed(ConfOf(ru, maxHeaderLen, 1), INITIAL, bytes).events)).Body?
    ensures Roomy(ru, ConfOf(ru, maxHeaderLen, 1), bytes)
    ensures SameOutcome(ru, Feed(ConfOf(ru, maxHeaderLen, 1), INITIAL, bytes),
                        Feed(ConfOf(ru, maxHeaderLen, size), INITIAL, bytes))
  {
    var a := ConfOf(ru, maxHeaderLen, 1);
    RoomyOrCharged(ru, a, bytes);
    CloseAnswers(ru, After(ru, Feed(a, INITIAL, bytes).events));
    RoomySizes(ru, maxHeaderLen, 1, size, bytes);
  }
}
