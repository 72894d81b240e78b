/** For sinks that do not judge the data, the size of the output buffer only decides how the data of a part is
    cut on its way to them. */
module OutputBuffer {
  import opened Matcher
  import opened PartHeader
  import opened Multipart
  import opened PartInvariant
  import opened Wrappers

  /** Whether a part is taken depends on its headers alone, and data is always taken. */
  ghost predicate Regular(cf: Conf, reply: Attrs -> Reply) {
    && (forall events, a :: cf.handler(events + [StartPart(a)]) == reply(a))
    && (forall events, d :: cf.handler(events + [FlushData(d)]) == Accept)
  }

  /** Two parsers that differ in how the data of the current part is cut. */
  ghost predicate Alike(s: Parser, t: Parser) {
    && s.phase == t.phase && s.boundaryStart == t.boundaryStart && s.boundaryPos == t.boundaryPos
    && s.accumulator == t.accumulator && s.attrs == t.attrs && s.rc == t.rc && s.discard == t.discard
    && Finished(s.events) == Finished(t.events)
    && (s.phase == Data && s.discard ==> s.output == t.output == [])
    && (s.phase == Data && !s.discard ==>
          CurrentAttrs(s.events) == CurrentAttrs(t.events) && Emitted(s) == Emitted(t))
  }

  lemma FlushAccepts(cf: Conf, reply: Attrs -> Reply, s: Parser)
    requires Regular(cf, reply)
    ensures FlushOutput(cf, s).discard == s.discard
  {
    assert cf.handler(s.events + [FlushData(s.output)]) == Accept;
  }

  lemma {:induction false} PutAllAccepts(cf: Conf, reply: Attrs -> Reply, s: Parser, out: string)
    requires ValidConf(cf) && Regular(cf, reply)
    ensures PutAll(cf, s, out).discard == s.discard
    ensures s.discard ==> PutAll(cf, s, out) == s
  {
    if out != [] {
      var front, c := out[..|out| - 1], out[|out| - 1];
      PutAllAccepts(cf, reply, s, front);
      var t := PutAll(cf, s, front);
      FlushAccepts(cf, reply, t.(output := t.output + [c]));
    }
  }

  lemma StartAlike(a: Conf, b: Conf, reply: Attrs -> Reply, s: Parser, t: Parser)
    requires Regular(a, reply) && Regular(b, reply) && Alike(s, t) && s.phase == Headers && !s.discard
    ensures Alike(Start(a, s), Start(b, t))
  {
    assert a.handler(s.events + [StartPart(s.attrs)]) == reply(s.attrs) == b.handler(t.events + [StartPart(t.attrs)]);
    EventAppended(s.events, StartPart(s.attrs));
    EventAppended(t.events, StartPart(t.attrs));
  }

  lemma EndAlike(a: Conf, b: Conf, reply: Attrs -> Reply, s: Parser, t: Parser)
    requires Regular(a, reply) && Regular(b, reply) && Alike(s, t) && s.phase == Data
    ensures Alike(EndPart(a, s), EndPart(b, t)) && !EndPart(a, s).discard
  {
    var s1, t1 := s.(phase := AfterBoundary, boundaryPos := s.boundaryStart),
        t.(phase := AfterBoundary, boundaryPos := t.boundaryStart);
    FlushAccepts(a, reply, s1);
    FlushAccepts(b, reply, t1);
    FlushEmits(a, s1);
    FlushEmits(b, t1);
    var s2, t2 := FlushOutput(a, s1), FlushOutput(b, t1);
    assert CurrentData(s2.events) + [] == CurrentData(s2.events)
        && CurrentData(t2.events) + [] == CurrentData(t2.events);
    var e := if s.discard then AbortPart else FinishPart;
    EventAppended(s2.events, e);
    EventAppended(t2.events, e);
  }

  lemma DataAlike(a: Conf, b: Conf, reply: Attrs -> Reply, s: Parser, t: Parser, c: char)
    requires ValidConf(a) && ValidConf(b) && a.delimiter == b.delimiter && Regular(a, reply) && Regular(b, reply)
    requires Alike(s, t) && s.phase == Data && Valid(a.delimiter, Match(s.boundaryStart, s.boundaryPos))
    ensures Alike(DataByte(a, s, c), DataByte(b, t, c))
    ensures DataByte(a, s, c).phase != Data ==> !DataByte(a, s, c).discard
  {
    var r := Advance(a.delimiter, Match(s.boundaryStart, s.boundaryPos), c);
    PutAllEmits(a, s, r.1);
    PutAllEmits(b, t, r.1);
    PutAllAccepts(a, reply, s, r.1);
    PutAllAccepts(b, reply, t, r.1);
    var s1 := PutAll(a, s, r.1).(boundaryStart := r.0.start, boundaryPos := r.0.pos);
    var t1 := PutAll(b, t, r.1).(boundaryStart := r.0.start, boundaryPos := r.0.pos);
    assert Alike(s1, t1);
    if r.0.pos == |a.delimiter| {
      EndAlike(a, b, reply, s1, t1);
    }
  }

  lemma StepAlike(a: Conf, b: Conf, reply: Attrs -> Reply, s: Parser, t: Parser, c: char)
    requires ValidConf(a) && ValidConf(b) && a.delimiter == b.delimiter && a.maxHeaderLen == b.maxHeaderLen
    requires Regular(a, reply) && Regular(b, reply) && ValidParser(a, s) && ValidParser(b, t)
    requires Alike(s, t) && (s.phase in {BoundarySeek, AfterBoundary, Headers} ==> !s.discard)
    ensures Alike(Step(a, s, c), Step(b, t, c))
    ensures Step(a, s, c).phase in {BoundarySeek, AfterBoundary, Headers} ==> !Step(a, s, c).discard
  {
    match s.phase
    case Data => DataAlike(a, b, reply, s, t, c);
    case Headers =>
      if c == '\n' && s.accumulator == [] {
        StartAlike(a, b, reply, s, t);
      }
    case _ =>
  }

  /** For sinks that do not judge the data, any two buffer sizes lead to the same parts, the same verdict
      and the same state, on every stream. */
  lemma {:induction false} BufferSizeIrrelevant(a: Conf, b: Conf, reply: Attrs -> Reply, bytes: string)
    requires ValidConf(a) && ValidConf(b) && a.delimiter == b.delimiter && a.maxHeaderLen == b.maxHeaderLen
    requires Regular(a, reply) && Regular(b, reply)
    ensures ValidParser(a, INITIAL) && ValidParser(b, INITIAL)
    ensures var s, t := Feed(a, INITIAL, bytes), Feed(b, INITIAL, bytes);
            && Alike(s, t) && (s.phase in {BoundarySeek, AfterBoundary, Headers} ==> !s.discard)
            && s.phase == t.phase && s.rc == t.rc && Finished(s.events) == Finished(t.events)
  {
    if bytes != [] {
      var front, c := bytes[..|bytes| - 1], bytes[|bytes| - 1];
      BufferSizeIrrelevant(a, b, reply, front);
      StepAlike(a, b, reply, Feed(a, INITIAL, front), Feed(b, INITIAL, front), c);
    }
  }
}
