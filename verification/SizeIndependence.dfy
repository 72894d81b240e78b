/** Where the size of the output buffer does not matter with the module's own part handlers. */
module SizeIndependence {
  import opened Matcher
  import opened PartHeader
  import opened Multipart
  import opened PartInvariant
  import opened FieldPrinter
  import opened RoundTrip
  import opened OutputChain
  import opened Forwarding
  import opened OutputBuffer
  import opened Wrappers

  // -------------------------------------------------- handlers that never judge data

  ghost predicate NeverJudges(ru: Rules)
    requires IsDelimiter(ru.delimiter)
  {
    && ru.maxBodyLen == 0 && ru.maxFileSize == 0
    && forall events, d | After(ru, events).isFile :: ru.fileAccepts(events + [FlushData(d)])
  }

  function ByHeaders(ru: Rules, attrs: Attrs): Reply {
    if attrs.fileName != [] || (ru.passes(attrs.fieldName) && attrs.fieldName != []) then Accept else Discard
  }

  lemma AnswerIs(ru: Rules, events: seq<Event>, e: Event)
    requires IsDelimiter(ru.delimiter)
    ensures HandlerOf(ru)(events + [e]) == Handle(ru, After(ru, events), events + [e]).1
  {
    AfterEvent(ru, events, e);
  }

  lemma RegularIf(ru: Rules, maxHeaderLen: nat, bufferSize: nat)
    requires IsDelimiter(ru.delimiter) && NeverJudges(ru)
    ensures Regular(ConfOf(ru, maxHeaderLen, bufferSize), attrs => ByHeaders(ru, attrs))
  {
    var h := HandlerOf(ru);
    forall events: seq<Event>, a: Attrs ensures h(events + [StartPart(a)]) == ByHeaders(ru, a) {
      AnswerIs(ru, events, StartPart(a));
    }
    forall events: seq<Event>, d: string ensures h(events + [FlushData(d)]) == Accept {
      AnswerIs(ru, events, FlushData(d));
    }
  }

  /** Exactly then the module's handlers take all data and judge a part by its headers: there is no limit on
      the body, and no write to a file fails. */
  lemma RegularIff(ru: Rules, maxHeaderLen: nat, bufferSize: nat)
    requires IsDelimiter(ru.delimiter)
    ensures (exists reply :: Regular(ConfOf(ru, maxHeaderLen, bufferSize), reply)) <==> NeverJudges(ru)
  {
    var h := HandlerOf(ru);
    if NeverJudges(ru) {
      RegularIf(ru, maxHeaderLen, bufferSize);
    }
    if reply :| Regular(ConfOf(ru, maxHeaderLen, bufferSize), reply) {
      var long, start := seq(ru.maxBodyLen + ru.maxFileSize + 1, _ => 'x'), StartPart(Attrs([], "f", []));
      assert h([] + [FlushData(long)]) == h([start] + [FlushData(long)]) == Accept;
      AnswerIs(ru, [], FlushData(long));
      AnswerIs(ru, [start], FlushData(long));
      FileStarted(ru, start);
      forall events, d | After(ru, events).isFile ensures ru.fileAccepts(events + [FlushData(d)]) {
        assert h(events + [FlushData(d)]) == Accept;
        AnswerIs(ru, events, FlushData(d));
      }
    }
  }

  lemma FileStarted(ru: Rules, start: Event)
    requires IsDelimiter(ru.delimiter) && start.StartPart? && start.attrs.fileName != []
    ensures After(ru, [start]).isFile
  {
    AfterEvent(ru, [], start);
    assert [] + [start] == [start];
  }

  /** With these handlers any two buffer sizes lead to the same parts and the same verdict on every stream. */
  lemma UnlimitedSizes(ru: Rules, maxHeaderLen: nat, sizeA: nat, sizeB: nat, bytes: string)
    requires IsDelimiter(ru.delimiter) && NeverJudges(ru) && sizeA > 0 && sizeB > 0
    ensures var a, b := ConfOf(ru, maxHeaderLen, sizeA), ConfOf(ru, maxHeaderLen, sizeB);
            && ValidParser(a, INITIAL) && ValidParser(b, INITIAL)
            && var s, t := Feed(a, INITIAL, bytes), Feed(b, INITIAL, bytes);
            s.phase == t.phase && s.rc == t.rc && Finished(s.events) == Finished(t.events)
  {
    var a, b := ConfOf(ru, maxHeaderLen, sizeA), ConfOf(ru, maxHeaderLen, sizeB);
    RegularIf(ru, maxHeaderLen, sizeA);
    RegularIf(ru, maxHeaderLen, sizeB);
    BufferSizeIrrelevant(a, b, attrs => ByHeaders(ru, attrs), bytes);
  }

  // ------------------------------------------------------------ one part

  /** Writes to the output file do not fail. */
  ghost predicate FileSinkAccepts(ru: Rules) {
    forall events :: ru.fileAccepts(events)
  }

  /** The handlers are the module's own. */
  ghost predicate Own(ru: Rules, cf: Conf) {
    IsDelimiter(ru.delimiter) && cf == ConfOf(ru, cf.maxHeaderLen, cf.bufferSize) && cf.bufferSize > 0
  }

  /** The limit on the data of a part, 0 for none, and what is on the account when all of it is flushed. */
  function Limit(ru: Rules, c: Chain): nat {
    if c.isFile then ru.maxFileSize else ru.maxBodyLen
  }

  function Account(c: Chain): nat {
    if c.isFile then c.fileOffset else c.bodyLen
  }

  function Used(ru: Rules, s: Parser): nat
    requires IsDelimiter(ru.delimiter)
  {
    Account(After(ru, s.events)) + |s.output|
  }

  predicate Exceeds(ru: Rules, s: Parser, more: nat)
    requires IsDelimiter(ru.delimiter)
  {
    var limit := Limit(ru, After(ru, s.events));
    limit != 0 && Used(ru, s) + more > limit
  }

  /** The part is discarded already, or will be when its data is flushed. */
  predicate Doomed(ru: Rules, s: Parser)
    requires IsDelimiter(ru.delimiter)
  {
    s.discard || (Exceeds(ru, s, 0) && Emitted(s) != [])
  }

  /** What was flushed and taken is within the limit. */
  predicate Paid(ru: Rules, s: Parser)
    requires IsDelimiter(ru.delimiter)
  {
    var c := After(ru, s.events);
    if s.discard then s.output == []
    else CurrentData(s.events) != [] && Limit(ru, c) != 0 ==> Account(c) <= Limit(ru, c)
  }

  /** What flushing leaves alone. */
  predicate Kept(c: Chain, c1: Chain) {
    && c1.isFile == c.isFile && c1.noContent == c.noContent && c1.firstPart == c.firstPart
    && c1.checkpoint == c.checkpoint && |c.links| <= |c1.links| && c.bodyLen <= c1.bodyLen
    && (c.isFile ==> c1.links == c.links && c1.bodyLen == c.bodyLen)
  }

  lemma FlushAny(ru: Rules, cf: Conf, s: Parser, t: Parser)
    requires Own(ru, cf) && FileSinkAccepts(ru) && !s.discard && Paid(ru, s) && t == FlushOutput(cf, s)
    ensures t == s.(output := [], events := t.events, discard := t.discard)
    ensures Kept(After(ru, s.events), After(ru, t.events)) && Paid(ru, t)
    ensures t.discard <==> s.output != [] && Exceeds(ru, s, 0)
    ensures !t.discard ==> Used(ru, t) == Used(ru, s)
  {
    if s.output != [] {
      AfterEvent(ru, s.events, FlushData(s.output));
      AnswerIs(ru, s.events, FlushData(s.output));
    }
  }

  lemma PutcAny(ru: Rules, cf: Conf, s: Parser, c: char, t: Parser)
    requires Own(ru, cf) && FileSinkAccepts(ru) && !s.discard && Paid(ru, s) && t == Putc(cf, s, c)
    ensures Kept(After(ru, s.events), After(ru, t.events)) && Paid(ru, t)
    ensures t.discard ==> Exceeds(ru, s, 1)
    ensures !t.discard ==> Used(ru, t) == Used(ru, s) + 1
  {
    var u := s.(output := s.output + [c]);
    FlushAny(ru, cf, u, FlushOutput(cf, u));
  }

  lemma PutAllDiscards(cf: Conf, s: Parser, out: string)
    requires ValidConf(cf) && s.discard
    ensures PutAll(cf, s, out) == s
  {
    if out != [] {
      PutAllDiscards(cf, s, out[..|out| - 1]);
    }
  }

  lemma KeptJoins(c: Chain, d: Chain, e: Chain)
    requires Kept(c, d) && Kept(d, e)
    ensures Kept(c, e)
  {
  }

  /** Data given to the sinks, however it is cut: it is taken, or the part is discarded, and then the limit is
      exceeded. */
  lemma {:induction false} PutAllAny(ru: Rules, cf: Conf, s: Parser, out: string)
    requires Own(ru, cf) && FileSinkAccepts(ru) && !s.discard && Paid(ru, s)
    ensures var t := PutAll(cf, s, out);
            && Kept(After(ru, s.events), After(ru, t.events)) && Paid(ru, t)
            && (t.discard ==> Exceeds(ru, s, |out|) && out != [])
            && (!t.discard ==> Used(ru, t) == Used(ru, s) + |out|)
  {
    if out != [] {
      var front, c := out[..|out| - 1], out[|out| - 1];
      PutAllAny(ru, cf, s, front);
      var u := PutAll(cf, s, front);
      var t := Putc(cf, u, c);
      if !u.discard {
        PutcAny(ru, cf, u, c, t);
        KeptJoins(After(ru, s.events), After(ru, u.events), After(ru, t.events));
      }
    }
  }

  /** Whether the part is doomed then does not depend on how the data was cut. */
  lemma PutDooms(ru: Rules, cf: Conf, s: Parser, out: string, t: Parser)
    requires Own(ru, cf) && FileSinkAccepts(ru) && Paid(ru, s) && t == PutAll(cf, s, out)
    ensures Kept(After(ru, s.events), After(ru, t.events)) && Paid(ru, t)
    ensures Doomed(ru, t) <==> s.discard || (Exceeds(ru, s, |out|) && (Emitted(s) != [] || out != []))
    ensures !t.discard ==> !s.discard && Emitted(t) == Emitted(s) + out && Used(ru, t) == Used(ru, s) + |out|
  {
    if s.discard {
      PutAllDiscards(cf, s, out);
    } else {
      PutAllAny(ru, cf, s, out);
      PutAllEmits(cf, s, out);
      if !t.discard {
        SameExcess(ru, s, t, |out|);
      }
    }
  }

  lemma SameExcess(ru: Rules, s: Parser, t: Parser, n: nat)
    requires IsDelimiter(ru.delimiter) && After(ru, t.events).isFile == After(ru, s.events).isFile
    requires Used(ru, t) == Used(ru, s) + n
    ensures Exceeds(ru, t, 0) <==> Exceeds(ru, s, n)
  {
  }

  /** The end of a part: it is aborted exactly if it is doomed. */
  lemma PartEnds(ru: Rules, cf: Conf, s: Parser, s1: Parser)
    requires Own(ru, cf) && FileSinkAccepts(ru) && Paid(ru, s) && s1 == FlushOutput(cf, s)
    ensures Kept(After(ru, s.events), After(ru, s1.events))
    ensures s1 == s.(output := [], events := s1.events, discard := Doomed(ru, s))
    ensures Finished(s1.events) == Finished(s.events)
    ensures !Doomed(ru, s) ==> && Account(After(ru, s1.events)) == Used(ru, s)
                               && CurrentAttrs(s1.events) == CurrentAttrs(s.events)
                               && CurrentData(s1.events) == Emitted(s)
    ensures EndPart(cf, s)
            == s1.(phase := AfterBoundary, boundaryPos := s.boundaryStart, attrs := NO_ATTRS, discard := false,
                                  events := s1.events + [if Doomed(ru, s) then AbortPart else FinishPart])
  {
    FlushEmits(cf, s);
    assert CurrentData(s1.events) + [] == CurrentData(s1.events);
    if !s.discard {
      FlushAny(ru, cf, s, s1);
      assert s.output == [] ==> CurrentData(s.events) == Emitted(s);
    }
  }

  // ----------------------------------------------------------- two sizes

  /** With so much on the account the body cannot be closed any more, and no further field begun. */
  predicate Full(ru: Rules, len: int) {
    ru.maxBodyLen != 0 && len + |ru.delimiter| + 4 > ru.maxBodyLen
  }

  predicate AlikeLen(ru: Rules, m: nat, n: nat) {
    m == n || (Full(ru, m) && Full(ru, n))
  }

  /** The length of the body before the data of the field began. */
  function Base(ru: Rules, s: Parser): int
    requires IsDelimiter(ru.delimiter)
  {
    Used(ru, s) - |Emitted(s)|
  }

  /** The data that byte c releases is within the limit of a field, or the body is full already. */
  predicate Room(ru: Rules, cf: Conf, s: Parser, c: char)
    requires IsDelimiter(ru.delimiter) && ValidConf(cf) && ValidParser(cf, s)
  {
    s.phase == Data && !s.discard && !After(ru, s.events).isFile ==>
      || !Exceeds(ru, s, |Advance(cf.delimiter, Match(s.boundaryStart, s.boundaryPos), c).1|)
      || Full(ru, Base(ru, s))
  }

  /** No field outgrows the limit of a body that is not full when the field begins. */
  predicate Roomy(ru: Rules, cf: Conf, bytes: string)
    requires IsDelimiter(ru.delimiter) && ValidConf(cf)
  {
    bytes != [] ==>
      Roomy(ru, cf, bytes[..|bytes| - 1])
      && Room(ru, cf, Feed(cf, INITIAL, bytes[..|bytes| - 1]), bytes[|bytes| - 1])
  }

  predicate Sound(c: Chain) {
    c.checkpoint <= |c.links| && (c.firstPart <==> c.links == [])
  }

  /** Two chains that differ in how the data is cut. */
  predicate LikeChains(c: Chain, c1: Chain) {
    && Sound(c) && Sound(c1)
    && c.isFile == c1.isFile && c.noContent == c1.noContent && c.firstPart == c1.firstPart
    && (c.checkpoint == 0 <==> c1.checkpoint == 0)
  }

  /** Two parsers that differ in how data is cut, their parts apart. */
  ghost predicate Near(s: Parser, t: Parser) {
    && s.phase == t.phase && s.boundaryStart == t.boundaryStart && s.boundaryPos == t.boundaryPos
    && s.accumulator == t.accumulator && s.attrs == t.attrs && s.rc == t.rc
    && Finished(s.events) == Finished(t.events)
  }

  predicate FullBefore(ru: Rules, s: Parser)
    requires IsDelimiter(ru.delimiter)
  {
    Full(ru, After(ru, s.events).bodyLen) && (!s.discard ==> Full(ru, Base(ru, s)))
  }

  /** In a part that both will discard. */
  predicate BothDoomed(ru: Rules, s: Parser, t: Parser)
    requires IsDelimiter(ru.delimiter)
  {
    var c, d := After(ru, s.events), After(ru, t.events);
    && Doomed(ru, s) && Doomed(ru, t)
    && if c.isFile || (s.discard && t.discard) then AlikeLen(ru, c.bodyLen, d.bodyLen)
       else FullBefore(ru, s) && FullBefore(ru, t) && !c.firstPart
  }

  /** In a part that both have taken so far. */
  predicate BothTaking(ru: Rules, s: Parser, t: Parser)
    requires IsDelimiter(ru.delimiter)
  {
    var c, d := After(ru, s.events), After(ru, t.events);
    && !Doomed(ru, s) && !Doomed(ru, t) && Used(ru, s) == Used(ru, t)
    && CurrentAttrs(s.events) == CurrentAttrs(t.events) && Emitted(s) == Emitted(t)
    && if c.isFile then AlikeLen(ru, c.bodyLen, d.bodyLen) else !c.firstPart
  }

  ghost predicate InStep(ru: Rules, s: Parser, t: Parser)
    requires IsDelimiter(ru.delimiter)
  {
    var c, d := After(ru, s.events), After(ru, t.events);
    && Near(s, t) && LikeChains(c, d)
    && if s.phase == Data then
         Paid(ru, s) && Paid(ru, t) && (BothDoomed(ru, s, t) || BothTaking(ru, s, t))
       else
         !s.discard && !t.discard && s.output == t.output == [] && AlikeLen(ru, c.bodyLen, d.bodyLen)
  }

  lemma HandleStart(ru: Rules, c: Chain, c1: Chain, attrs: Attrs, events: seq<Event>, events1: seq<Event>)
    requires IsDelimiter(ru.delimiter) && LikeChains(c, c1) && AlikeLen(ru, c.bodyLen, c1.bodyLen)
    requires events != [] && events1 != [] && events[|events| - 1] == events1[|events1| - 1] == StartPart(attrs)
    ensures var r, r1 := Handle(ru, c, events), Handle(ru, c1, events1);
            && LikeChains(r.0, r1.0) && AlikeLen(ru, r.0.bodyLen, r1.0.bodyLen) && r.1 == r1.1
            && (r.1 == Accept ==> Account(r.0) == Account(r1.0) && (!r.0.isFile ==> !r.0.firstPart))
  {
    if attrs.fileName == [] && ru.passes(attrs.fieldName) && attrs.fieldName != [] {
      FieldAlike(ru, c.(isFile := false), c1.(isFile := false), attrs.fieldName);
    }
  }

  lemma FieldAlike(ru: Rules, c: Chain, c1: Chain, name: string)
    requires IsDelimiter(ru.delimiter) && LikeChains(c, c1) && AlikeLen(ru, c.bodyLen, c1.bodyLen) && name != []
    ensures var r, r1 := AppendField(ru, c, name, []), AppendField(ru, c1, name, []);
            && r.None? == r1.None?
            && (r.Some? ==> LikeChains(r.value, r1.value) && r.value.bodyLen == r1.value.bodyLen && !r.value.firstPart)
  {
    HeadIsLonger(ru, c, name);
    HeadIsLonger(ru, c1, name);
  }

  /** The head of a field is longer than the end of the body. */
  lemma HeadIsLonger(ru: Rules, c: Chain, name: string)
    requires IsDelimiter(ru.delimiter)
    ensures FieldLen(ru, c, name, []) >= FirstFieldLen(ru, name) > |ru.delimiter| + 4
  {
  }

  /** The length of a field without its value, behind the first delimiter. */
  function FirstFieldLen(ru: Rules, name: string): nat
    requires IsDelimiter(ru.delimiter)
  {
    |ru.delimiter| - 2 + |FIELD_PART1| + |name| + |FIELD_PART2|
  }

  lemma StartedAlike(ru: Rules, before: seq<Event>, before1: seq<Event>, attrs: Attrs, events: seq<Event>,
                     events1: seq<Event>)
    requires IsDelimiter(ru.delimiter)
    requires events == before + [StartPart(attrs)] && events1 == before1 + [StartPart(attrs)]
    requires LikeChains(After(ru, before), After(ru, before1))
    requires AlikeLen(ru, After(ru, before).bodyLen, After(ru, before1).bodyLen)
    ensures HandlerOf(ru)(events) == HandlerOf(ru)(events1)
    ensures var c, c1 := After(ru, events), After(ru, events1);
            && LikeChains(c, c1) && AlikeLen(ru, c.bodyLen, c1.bodyLen)
            && (HandlerOf(ru)(events) == Accept ==> Account(c) == Account(c1) && (!c.isFile ==> !c.firstPart))
  {
    AfterEvent(ru, before, StartPart(attrs));
    AfterEvent(ru, before1, StartPart(attrs));
    HandleStart(ru, After(ru, before), After(ru, before1), attrs, events, events1);
  }

  lemma StartInStep(ru: Rules, a: Conf, b: Conf, s: Parser, t: Parser)
    requires Own(ru, a) && Own(ru, b) && InStep(ru, s, t) && s.phase == Headers
    ensures InStep(ru, Start(a, s), Start(b, t))
  {
    var e := StartPart(s.attrs);
    StartedAlike(ru, s.events, t.events, s.attrs, s.events + [e], t.events + [e]);
    EventAppended(s.events, e);
    EventAppended(t.events, e);
  }

  // ---------------------------------------------------------------- data

  /** Cutting data differently. */
  lemma KeptAlike(c: Chain, c1: Chain, d: Chain, d1: Chain)
    requires LikeChains(c, c1) && Kept(c, d) && Kept(c1, d1) && (!c.isFile ==> !c.firstPart)
    ensures LikeChains(d, d1) && d.isFile == c.isFile && d.firstPart == c.firstPart
  {
  }

  lemma BaseGrows(ru: Rules, s: Parser)
    requires IsDelimiter(ru.delimiter) && !After(ru, s.events).isFile
    ensures Base(ru, s) <= After(ru, s.events).bodyLen
  {
  }

  /** Data put out in a part that is doomed. */
  lemma PutDoomed(ru: Rules, a: Conf, b: Conf, s: Parser, t: Parser, out: string, s1: Parser, t1: Parser)
    requires Own(ru, a) && Own(ru, b) && FileSinkAccepts(ru) && InStep(ru, s, t) && s.phase == Data
    requires BothDoomed(ru, s, t) && s1 == PutAll(a, s, out) && t1 == PutAll(b, t, out)
    ensures Paid(ru, s1) && Paid(ru, t1) && LikeChains(After(ru, s1.events), After(ru, t1.events))
            && BothDoomed(ru, s1, t1)
  {
    PutDooms(ru, a, s, out, s1);
    PutDooms(ru, b, t, out, t1);
    if s.discard && t.discard {
      PutAllDiscards(a, s, out);
      PutAllDiscards(b, t, out);
    } else {
      KeptAlike(After(ru, s.events), After(ru, t.events), After(ru, s1.events), After(ru, t1.events));
    }
  }

  /** Data put out in a part that was taken so far: it is taken on, or doomed in both. */
  lemma PutTaken(ru: Rules, a: Conf, b: Conf, s: Parser, t: Parser, out: string, s1: Parser, t1: Parser)
    requires Own(ru, a) && Own(ru, b) && FileSinkAccepts(ru) && InStep(ru, s, t) && s.phase == Data
    requires BothTaking(ru, s, t) && s1 == PutAll(a, s, out) && t1 == PutAll(b, t, out)
    requires After(ru, s.events).isFile || !Exceeds(ru, s, |out|) || Full(ru, Base(ru, s))
    ensures Paid(ru, s1) && Paid(ru, t1) && LikeChains(After(ru, s1.events), After(ru, t1.events))
    ensures BothDoomed(ru, s1, t1) || BothTaking(ru, s1, t1)
  {
    PutDooms(ru, a, s, out, s1);
    PutDooms(ru, b, t, out, t1);
    KeptAlike(After(ru, s.events), After(ru, t.events), After(ru, s1.events), After(ru, t1.events));
    if Doomed(ru, s1) {
      NowDoomed(ru, s, s1);
      NowDoomed(ru, t, t1);
    } else {
      PutAllEmits(a, s, out);
      PutAllEmits(b, t, out);
    }
  }

  /** A field that outgrows the limit of a full body. */
  lemma NowDoomed(ru: Rules, s: Parser, s1: Parser)
    requires IsDelimiter(ru.delimiter) && Kept(After(ru, s.events), After(ru, s1.events)) && Doomed(ru, s1)
    requires !s1.discard ==> Base(ru, s1) == Base(ru, s)
    ensures After(ru, s.events).isFile || !Full(ru, Base(ru, s)) || FullBefore(ru, s1)
  {
    if !After(ru, s.events).isFile {
      BaseGrows(ru, s);
    }
  }

  lemma PutInStep(ru: Rules, a: Conf, b: Conf, s: Parser, t: Parser, out: string, start: nat, pos: nat)
    requires Own(ru, a) && Own(ru, b) && FileSinkAccepts(ru) && InStep(ru, s, t) && s.phase == Data
    requires s.discard || After(ru, s.events).isFile || !Exceeds(ru, s, |out|) || Full(ru, Base(ru, s))
    ensures InStep(ru, PutAll(a, s, out).(boundaryStart := start, boundaryPos := pos),
                   PutAll(b, t, out).(boundaryStart := start, boundaryPos := pos))
  {
    var s1, t1 := PutAll(a, s, out), PutAll(b, t, out);
    PutAllEmits(a, s, out);
    PutAllEmits(b, t, out);
    assert Near(s1, t1);
    if BothDoomed(ru, s, t) {
      PutDoomed(ru, a, b, s, t, out, s1, t1);
    } else {
      PutTaken(ru, a, b, s, t, out, s1, t1);
    }
    MatcherMoved(ru, s1, t1, start, pos);
  }

  lemma MatcherMoved(ru: Rules, s: Parser, t: Parser, start: nat, pos: nat)
    requires IsDelimiter(ru.delimiter) && InStep(ru, s, t) && s.phase == Data
    ensures InStep(ru, s.(boundaryStart := start, boundaryPos := pos), t.(boundaryStart := start, boundaryPos := pos))
  {
  }

  lemma HandleEnd(ru: Rules, c: Chain, c1: Chain, e: Event, events: seq<Event>, events1: seq<Event>)
    requires IsDelimiter(ru.delimiter) && LikeChains(c, c1) && (e.FinishPart? || e.AbortPart?)
    requires events != [] && events1 != [] && events[|events| - 1] == events1[|events1| - 1] == e
    ensures var r, r1 := Handle(ru, c, events), Handle(ru, c1, events1);
            LikeChains(r.0, r1.0) && r.0.bodyLen == c.bodyLen && r1.0.bodyLen == c1.bodyLen
  {
  }

  lemma EventsAlike(ru: Rules, events: seq<Event>, events1: seq<Event>, e: Event)
    requires IsDelimiter(ru.delimiter) && (e.FinishPart? || e.AbortPart?)
    requires LikeChains(After(ru, events), After(ru, events1)) && Finished(events) == Finished(events1)
    requires e.FinishPart?
             ==> CurrentAttrs(events) == CurrentAttrs(events1) && CurrentData(events) == CurrentData(events1)
    ensures LikeChains(After(ru, events + [e]), After(ru, events1 + [e]))
    ensures After(ru, events + [e]).bodyLen == After(ru, events).bodyLen
    ensures After(ru, events1 + [e]).bodyLen == After(ru, events1).bodyLen
    ensures Finished(events + [e]) == Finished(events1 + [e])
  {
    AfterEvent(ru, events, e);
    AfterEvent(ru, events1, e);
    EventAppended(events, e);
    EventAppended(events1, e);
    HandleEnd(ru, After(ru, events), After(ru, events1), e, events + [e], events1 + [e]);
  }

  /** The last flush of a part leaves chains alike. */
  lemma FlushedAlike(ru: Rules, a: Conf, b: Conf, s: Parser, t: Parser, s1: Parser, t1: Parser)
    requires Own(ru, a) && Own(ru, b) && FileSinkAccepts(ru) && InStep(ru, s, t) && s.phase == Data
    requires s1 == FlushOutput(a, s) && t1 == FlushOutput(b, t)
    ensures LikeChains(After(ru, s1.events), After(ru, t1.events))
    ensures AlikeLen(ru, After(ru, s1.events).bodyLen, After(ru, t1.events).bodyLen)
  {
    PartEnds(ru, a, s, s1);
    PartEnds(ru, b, t, t1);
    if !(s.discard && t.discard) {
      KeptAlike(After(ru, s.events), After(ru, t.events), After(ru, s1.events), After(ru, t1.events));
    }
  }

  lemma EndInStep(ru: Rules, a: Conf, b: Conf, s: Parser, t: Parser)
    requires Own(ru, a) && Own(ru, b) && FileSinkAccepts(ru) && InStep(ru, s, t) && s.phase == Data
    ensures InStep(ru, EndPart(a, s), EndPart(b, t))
  {
    var s1, t1 := FlushOutput(a, s), FlushOutput(b, t);
    PartEnds(ru, a, s, s1);
    PartEnds(ru, b, t, t1);
    FlushedAlike(ru, a, b, s, t, s1, t1);
    EventsAlike(ru, s1.events, t1.events, if Doomed(ru, s) then AbortPart else FinishPart);
  }

  // ------------------------------------------------------------ the run

  lemma DataInStep(ru: Rules, a: Conf, b: Conf, s: Parser, t: Parser, c: char)
    requires Own(ru, a) && Own(ru, b) && FileSinkAccepts(ru) && InStep(ru, s, t) && s.phase == Data
    requires ValidParser(a, s) && Room(ru, a, s, c)
    ensures InStep(ru, DataByte(a, s, c), DataByte(b, t, c))
  {
    var r := Advance(a.delimiter, Match(s.boundaryStart, s.boundaryPos), c);
    PutInStep(ru, a, b, s, t, r.1, r.0.start, r.0.pos);
    if r.0.pos == |a.delimiter| {
      EndInStep(ru, a, b, PutAll(a, s, r.1).(boundaryStart := r.0.start, boundaryPos := r.0.pos),
                PutAll(b, t, r.1).(boundaryStart := r.0.start, boundaryPos := r.0.pos));
    }
  }

  lemma OutsideInStep(ru: Rules, a: Conf, b: Conf, s: Parser, t: Parser, c: char)
    requires Own(ru, a) && Own(ru, b) && InStep(ru, s, t) && ValidParser(a, s) && ValidParser(b, t)
    requires s.phase in {BoundarySeek, AfterBoundary, Finish}
    ensures InStep(ru, Step(a, s, c), Step(b, t, c))
  {
  }

  lemma HeadersInStep(ru: Rules, a: Conf, b: Conf, s: Parser, t: Parser, c: char)
    requires Own(ru, a) && Own(ru, b) && a.maxHeaderLen == b.maxHeaderLen && InStep(ru, s, t) && s.phase == Headers
    ensures InStep(ru, HeaderByte(a, s, c), HeaderByte(b, t, c))
  {
    if c == '\n' && s.accumulator == [] {
      StartInStep(ru, a, b, s, t);
    } else {
      HeaderByteKeeps(a, s, c);
      HeaderByteKeeps(b, t, c);
    }
  }

  lemma StepInStep(ru: Rules, a: Conf, b: Conf, s: Parser, t: Parser, c: char)
    requires Own(ru, a) && Own(ru, b) && a.maxHeaderLen == b.maxHeaderLen && FileSinkAccepts(ru) && InStep(ru, s, t)
    requires ValidParser(a, s) && ValidParser(b, t) && Room(ru, a, s, c)
    ensures InStep(ru, Step(a, s, c), Step(b, t, c))
  {
    if s.phase == Data {
      DataInStep(ru, a, b, s, t, c);
    } else if s.phase == Headers {
      HeadersInStep(ru, a, b, s, t, c);
    } else {
      OutsideInStep(ru, a, b, s, t, c);
    }
  }

  lemma SameRoom(ru: Rules, a: Conf, b: Conf, s: Parser, t: Parser, c: char)
    requires Own(ru, a) && Own(ru, b) && InStep(ru, s, t) && ValidParser(a, s) && ValidParser(b, t)
    ensures Room(ru, a, s, c) <==> Room(ru, b, t, c)
  {
  }

  lemma {:induction false} RoomyInStep(ru: Rules, a: Conf, b: Conf, bytes: string)
    requires Own(ru, a) && Own(ru, b) && a.maxHeaderLen == b.maxHeaderLen && FileSinkAccepts(ru)
    ensures Roomy(ru, a, bytes) <==> Roomy(ru, b, bytes)
    ensures Roomy(ru, a, bytes) ==> InStep(ru, Feed(a, INITIAL, bytes), Feed(b, INITIAL, bytes))
  {
    if bytes != [] {
      var front, c := bytes[..|bytes| - 1], bytes[|bytes| - 1];
      RoomyInStep(ru, a, b, front);
      if Roomy(ru, a, front) {
        var s, t := Feed(a, INITIAL, front), Feed(b, INITIAL, front);
        SameRoom(ru, a, b, s, t, c);
        if Room(ru, a, s, c) {
          StepInStep(ru, a, b, s, t, c);
        }
      }
    }
  }

  /** What a request comes to. */
  ghost predicate SameOutcome(ru: Rules, s: Parser, t: Parser)
    requires IsDelimiter(ru.delimiter)
  {
    && s.phase == t.phase && s.rc == t.rc && Finished(s.events) == Finished(t.events)
    && (s.phase != Data ==> Close(ru, After(ru, s.events)) == Close(ru, After(ru, t.events)))
  }

  /** With the module's own handlers and any limits on the body and on files: whether a field outgrows the limit
      of a body that was not full does not depend on the size of the buffer, and on a stream on which none
      does any two sizes lead to the same parts, the same verdict and the same body passed on. */
  lemma RoomySizes(ru: Rules, maxHeaderLen: nat, sizeA: nat, sizeB: nat, bytes: string)
    requires IsDelimiter(ru.delimiter) && FileSinkAccepts(ru) && sizeA > 0 && sizeB > 0
    ensures var a, b := ConfOf(ru, maxHeaderLen, sizeA), ConfOf(ru, maxHeaderLen, sizeB);
            && ValidParser(a, INITIAL) && ValidParser(b, INITIAL)
            && (Roomy(ru, a, bytes) <==> Roomy(ru, b, bytes))
            && (Roomy(ru, a, bytes) ==> SameOutcome(ru, Feed(a, INITIAL, bytes), Feed(b, INITIAL, bytes)))
  {
    var a, b := ConfOf(ru, maxHeaderLen, sizeA), ConfOf(ru, maxHeaderLen, sizeB);
    RoomyInStep(ru, a, b, bytes);
    var s, t := Feed(a, INITIAL, bytes), Feed(b, INITIAL, bytes);
    if Roomy(ru, a, bytes) && s.phase != Data {
      RunLink(ru, a, bytes);
      RunLink(ru, b, bytes);
      ClosedAlike(ru, After(ru, s.events), After(ru, t.events), Sent(s.events));
    }
  }

  lemma ClosedAlike(ru: Rules, c: Chain, c1: Chain, sent: seq<FormField>)
    requires IsDelimiter(ru.delimiter) && LikeChains(c, c1) && AlikeLen(ru, c.bodyLen, c1.bodyLen)
    requires Committed(ru, c, sent) && |c.links| == c.checkpoint
    requires Committed(ru, c1, sent) && |c1.links| == c1.checkpoint
    ensures Close(ru, c) == Close(ru, c1)
  {
    CloseAnswers(ru, c);
    CloseAnswers(ru, c1);
    if Close(ru, c).Body? {
      ClosedIsPrinted(ru, c, sent);
      ClosedIsPrinted(ru, c1, sent);
    }
  }
}
