/** The body passed on means what the request meant: parsed again it yields the form fields that the
    request finished, in order. */
module Forwarding {
  import opened Sequences
  import opened Matcher
  import opened PartHeader
  import opened Multipart
  import opened PartInvariant
  import opened FieldPrinter
  import opened RoundTrip
  import opened OutputChain
  import opened Wrappers

  function HandlerOf(ru: Rules): Handler {
    events => if IsDelimiter(ru.delimiter) then Answer(ru, events) else Accept
  }

  /** The parser whose part handlers are those of the output chain. */
  function ConfOf(ru: Rules, maxHeaderLen: nat, bufferSize: nat): Conf {
    Conf(ru.delimiter, maxHeaderLen, bufferSize, HandlerOf(ru))
  }

  /** The form fields among the finished parts: those without a file name. */
  function Fields(parts: seq<Part>): seq<FormField> {
    if parts == [] then []
    else
      var p := parts[|parts| - 1];
      Fields(parts[..|parts| - 1])
      + (if p.attrs.fileName == [] then [FormField(p.attrs.fieldName, p.data)] else [])
  }

  /** Printed fields as they stand in the chain. */
  function Opened(text: string): string {
    if |text| < 2 then [] else text[2..]
  }

  /** The fields finished so far. */
  function Sent(events: seq<Event>): seq<FormField> {
    Fields(Finished(events))
  }

  function FieldHead(d: string, sent: seq<FormField>, name: string): string
    requires IsDelimiter(d)
  {
    Opened(PrintRest(d, sent)) + (if sent == [] then d[2..] else d) + FIELD_PART1 + name + FIELD_PART2
  }

  /** Up to the checkpoint the chain holds exactly the finished fields. */
  predicate Committed(ru: Rules, c: Chain, sent: seq<FormField>)
    requires IsDelimiter(ru.delimiter)
  {
    && c.checkpoint <= |c.links|
    && Flat(c.links[..c.checkpoint]) == Opened(PrintRest(ru.delimiter, sent))
    && (c.firstPart <==> c.links == [])
    && (c.noContent ==> c.links == [])
    && (sent == [] <==> c.checkpoint == 0)
    && forall f | f in sent :: f.name != []
  }

  /** While a part is received: behind the checkpoint there is the field being built, or nothing for a
      file. */
  predicate Building(ru: Rules, c: Chain, sent: seq<FormField>, attrs: Attrs, data: string)
    requires IsDelimiter(ru.delimiter)
  {
    if c.isFile then |c.links| == c.checkpoint
    else attrs.fieldName != [] && Flat(c.links) == FieldHead(ru.delimiter, sent, attrs.fieldName) + data
  }

  predicate InPart(ru: Rules, s: Parser)
    requires IsDelimiter(ru.delimiter)
  {
    var c := After(ru, s.events);
    && Committed(ru, c, Sent(s.events))
    && c.isFile == (s.attrs.fileName != [])
    && (s.discard ==> s.output == [])
    && (!s.discard ==> Building(ru, c, Sent(s.events), s.attrs, CurrentData(s.events)))
  }

  predicate Linked(ru: Rules, s: Parser)
    requires IsDelimiter(ru.delimiter)
  {
    if s.phase == Data then InPart(ru, s)
    else Committed(ru, After(ru, s.events), Sent(s.events))
         && |After(ru, s.events).links| == After(ru, s.events).checkpoint
  }

  lemma AfterEvent(ru: Rules, events: seq<Event>, e: Event)
    requires IsDelimiter(ru.delimiter)
    ensures After(ru, events + [e]) == Handle(ru, After(ru, events), events + [e]).0
    ensures Answer(ru, events + [e]) == Handle(ru, After(ru, events), events + [e]).1
    ensures !e.FinishPart? ==> Sent(events + [e]) == Sent(events)
  {
    assert (events + [e])[..|events|] == events;
    EventAppended(events, e);
  }

  lemma FlatPush(links: seq<string>, s: string)
    ensures Flat(links + [s]) == Flat(links) + s
  {
    assert (links + [s])[..|links|] == links;
  }

  lemma {:induction false} FlatAppend(a: seq<string>, b: seq<string>)
    ensures Flat(a + b) == Flat(a) + Flat(b)
  {
    if b == [] {
      assert a + b == a;
    } else {
      assert (a + b)[..|a + b| - 1] == a + b[..|b| - 1];
      FlatAppend(a, b[..|b| - 1]);
      assert Flat(a) + Flat(b[..|b| - 1]) + b[|b| - 1] == Flat(a) + (Flat(b[..|b| - 1]) + b[|b| - 1]);
    }
  }

  // ---------------------------------------------------------------- flush

  lemma FlushLink(ru: Rules, cf: Conf, s: Parser)
    requires IsDelimiter(ru.delimiter) && cf.handler == HandlerOf(ru) && InPart(ru, s)
    ensures InPart(ru, FlushOutput(cf, s))
  {
    if s.output != [] {
      var e := FlushData(s.output);
      var c, c1 := After(ru, s.events), After(ru, s.events + [e]);
      AfterEvent(ru, s.events, e);
      EventAppended(s.events, e);
      FlushBuilds(ru, c, Sent(s.events), s.attrs, CurrentData(s.events), s.output, s.events + [e]);
    }
  }

  lemma {:induction false} FlushBuilds(ru: Rules, c: Chain, sent: seq<FormField>, attrs: Attrs, data: string,
                                       more: string, events: seq<Event>)
    requires IsDelimiter(ru.delimiter) && Committed(ru, c, sent) && Building(ru, c, sent, attrs, data)
    requires events != [] && events[|events| - 1] == FlushData(more)
    ensures var r := Handle(ru, c, events);
            && Committed(ru, r.0, sent) && r.0.isFile == c.isFile
            && (r.1 == Accept ==> Building(ru, r.0, sent, attrs, data + more))
  {
    if !c.isFile {
      FlatPush(c.links, more);
      assert c.links == [] ==> Flat(c.links) == [];
      assert (c.links + [more])[..c.checkpoint] == c.links[..c.checkpoint];
      Assoc(FieldHead(ru.delimiter, sent, attrs.fieldName), data, more);
    }
  }

  lemma {:induction false} PutAllLink(ru: Rules, cf: Conf, s: Parser, out: string)
    requires ValidConf(cf) && cf.delimiter == ru.delimiter && cf.handler == HandlerOf(ru) && InPart(ru, s)
    ensures InPart(ru, PutAll(cf, s, out))
  {
    if out != [] {
      PutAllLink(ru, cf, s, out[..|out| - 1]);
      var t := PutAll(cf, s, out[..|out| - 1]);
      if !t.discard {
        FlushLink(ru, cf, t.(output := t.output + [out[|out| - 1]]));
      }
    }
  }

  // ---------------------------------------------------------- start and end

  /** A field just opened in a chain that ends at its checkpoint. */
  lemma {:induction false} AppendBuilds(ru: Rules, c: Chain, sent: seq<FormField>, name: string)
    requires IsDelimiter(ru.delimiter) && Committed(ru, c, sent) && |c.links| == c.checkpoint && name != []
    requires AppendField(ru, c, name, []).Some?
    ensures var c1 := AppendField(ru, c, name, []).value;
            Committed(ru, c1, sent) && c1.isFile == c.isFile
            && Flat(c1.links) == FieldHead(ru.delimiter, sent, name) + []
  {
    var c1 := AppendField(ru, c, name, []).value;
    var first := FieldDelimiter(ru, c);
    var piece := [first, FIELD_PART1, name, FIELD_PART2];
    assert c.links[..c.checkpoint] == c.links;
    assert c1.links == c.links + piece + [] == c.links + piece;
    FlatAppend(c.links, piece);
    FlatFour(first, FIELD_PART1, name, FIELD_PART2);
    assert (c.links + piece)[..c.checkpoint] == c.links;
    HeadText(Opened(PrintRest(ru.delimiter, sent)), first, FIELD_PART1, name, FIELD_PART2);
  }

  lemma {:induction false} StartBuilds(ru: Rules, c: Chain, sent: seq<FormField>, attrs: Attrs, events: seq<Event>)
    requires IsDelimiter(ru.delimiter) && Committed(ru, c, sent) && |c.links| == c.checkpoint
    requires events != [] && events[|events| - 1] == StartPart(attrs)
    ensures var r := Handle(ru, c, events);
            && Committed(ru, r.0, sent) && r.0.isFile == (attrs.fileName != [])
            && (r.1 == Accept ==> Building(ru, r.0, sent, attrs, []))
            && (r.1 != Accept ==> |r.0.links| == r.0.checkpoint)
  {
    var c1 := c.(isFile := attrs.fileName != []);
    if attrs.fieldName != [] && AppendField(ru, c1, attrs.fieldName, []).Some? {
      AppendBuilds(ru, c1, sent, attrs.fieldName);
    }
  }

  lemma HeadText(base: string, first: string, p1: string, name: string, p2: string)
    ensures base + (first + p1 + name + p2) == base + first + p1 + name + p2 + []
  {
  }

  lemma StartLink(ru: Rules, cf: Conf, s: Parser)
    requires IsDelimiter(ru.delimiter) && cf.handler == HandlerOf(ru) && s.phase == Headers
    requires Linked(ru, s) && !s.discard && s.output == []
    ensures Linked(ru, Start(cf, s))
  {
    var e := StartPart(s.attrs);
    AfterEvent(ru, s.events, e);
    EventAppended(s.events, e);
    StartBuilds(ru, After(ru, s.events), Sent(s.events), s.attrs, s.events + [e]);
  }

  lemma FlatFour(a: string, b: string, c: string, d: string)
    ensures Flat([a, b, c, d]) == a + b + c + d
  {
    FlatPush([], a);
    FlatPush([a], b);
    FlatPush([a, b], c);
    FlatPush([a, b, c], d);
    assert [] + [a] == [a] && [a] + [b] == [a, b] && [a, b] + [c] == [a, b, c] && [a, b, c] + [d] == [a, b, c, d];
  }

  lemma FieldsPush(parts: seq<Part>, p: Part)
    ensures Fields(parts + [p])
         == Fields(parts) + (if p.attrs.fileName == [] then [FormField(p.attrs.fieldName, p.data)] else [])
  {
    assert (parts + [p])[..|parts|] == parts;
  }

  /** A finished field: what was built is the printed field. */
  lemma {:induction false} PrintedFieldBuilt(d: string, sent: seq<FormField>, f: FormField)
    requires IsDelimiter(d) && f.name != [] && forall g | g in sent :: g.name != []
    ensures Opened(PrintRest(d, sent + [f])) == FieldHead(d, sent, f.name) + f.value
  {
    assert (sent + [f])[..|sent|] == sent;
    assert sent != [] ==> sent[|sent| - 1] in sent;
    BuiltText(PrintRest(d, sent), d, FIELD_PART1, f.name, FIELD_PART2, f.value);
  }

  lemma BuiltText(rest: string, d: string, p1: string, name: string, p2: string, value: string)
    requires (rest == [] || |rest| >= 2) && |d| >= 2
    ensures Opened(rest + (d + p1 + name + p2 + value))
         == Opened(rest) + (if rest == [] then d[2..] else d) + p1 + name + p2 + value
  {
    var field := d + p1 + name + p2 + value;
    if rest == [] {
      assert [] + field == field;
      assert field[2..] == d[2..] + p1 + name + p2 + value;
      assert [] + d[2..] == d[2..];
    } else {
      assert (rest + field)[2..] == rest[2..] + field;
      assert rest[2..] + field == rest[2..] + d + p1 + name + p2 + value;
    }
  }

  lemma {:induction false} FinishBuilds(ru: Rules, c: Chain, sent: seq<FormField>, attrs: Attrs, data: string,
                                        events: seq<Event>)
    requires IsDelimiter(ru.delimiter) && Committed(ru, c, sent) && Building(ru, c, sent, attrs, data)
    requires events != [] && events[|events| - 1] == FinishPart
    ensures var c1 := Handle(ru, c, events).0;
            var sent1 := sent + (if c.isFile then [] else [FormField(attrs.fieldName, data)]);
            Committed(ru, c1, sent1) && |c1.links| == c1.checkpoint
  {
    assert c.links[..|c.links|] == c.links;
    if c.isFile {
      assert sent + [] == sent;
    } else {
      PrintedFieldBuilt(ru.delimiter, sent, FormField(attrs.fieldName, data));
      assert c.links == [] ==> Flat(c.links) == [];
    }
  }

  lemma {:induction false} AbortBuilds(ru: Rules, c: Chain, sent: seq<FormField>, events: seq<Event>)
    requires IsDelimiter(ru.delimiter) && Committed(ru, c, sent)
    requires events != [] && events[|events| - 1] == AbortPart
    ensures var c1 := Handle(ru, c, events).0;
            Committed(ru, c1, sent) && |c1.links| == c1.checkpoint
  {
    assert c.links[..c.checkpoint][..c.checkpoint] == c.links[..c.checkpoint];
    assert c.checkpoint == 0 ==> c.links[..c.checkpoint] == [];
  }

  lemma {:induction false} EndLink(ru: Rules, cf: Conf, s: Parser)
    requires IsDelimiter(ru.delimiter) && cf.handler == HandlerOf(ru) && InPart(ru, s)
    requires CurrentAttrs(s.events) == s.attrs
    ensures Linked(ru, EndPart(cf, s))
  {
    var u := s.(phase := AfterBoundary, boundaryPos := s.boundaryStart);
    FlushLink(ru, cf, u);
    FlushEmits(cf, u);
    var v := FlushOutput(cf, u);
    var c, sent := After(ru, v.events), Sent(v.events);
    var e := if v.discard then AbortPart else FinishPart;
    AfterEvent(ru, v.events, e);
    EventAppended(v.events, e);
    if v.discard {
      AbortBuilds(ru, c, sent, v.events + [e]);
    } else {
      FieldsPush(Finished(v.events), Part(s.attrs, CurrentData(v.events)));
      FinishBuilds(ru, c, sent, s.attrs, CurrentData(v.events), v.events + [e]);
    }
  }

  // ---------------------------------------------------------- the whole run

  lemma {:induction false} DataByteLink(ru: Rules, cf: Conf, s: Parser, c: char)
    requires ValidConf(cf) && cf.delimiter == ru.delimiter && cf.handler == HandlerOf(ru)
    requires ValidParser(cf, s) && s.phase == Data && InPart(ru, s) && CurrentAttrs(s.events) == s.attrs
    ensures Linked(ru, DataByte(cf, s, c))
    ensures DataByte(cf, s, c).phase != Data ==> !DataByte(cf, s, c).discard
  {
    var r := Advance(cf.delimiter, Match(s.boundaryStart, s.boundaryPos), c);
    PutAllLink(ru, cf, s, r.1);
    PutAllEmits(cf, s, r.1);
    if r.0.pos == |cf.delimiter| {
      EndLink(ru, cf, PutAll(cf, s, r.1).(boundaryStart := r.0.start, boundaryPos := r.0.pos));
    }
  }

  lemma {:induction false} StepLink(ru: Rules, cf: Conf, s: Parser, c: char)
    requires ValidConf(cf) && cf.delimiter == ru.delimiter && cf.handler == HandlerOf(ru)
    requires Inv(cf, s) && Linked(ru, s) && (s.phase != Data ==> !s.discard)
    ensures Linked(ru, Step(cf, s, c))
    ensures Step(cf, s, c).phase != Data ==> !Step(cf, s, c).discard
  {
    if s.phase == Data {
      DataByteLink(ru, cf, s, c);
    } else if s.phase == Headers && c == '\n' && s.accumulator == [] {
      StartLink(ru, cf, s);
    } else if s.phase == Headers {
      HeaderByteKeeps(cf, s, c);
    }
  }

  lemma {:induction false} HeaderByteKeeps(cf: Conf, s: Parser, c: char)
    requires s.phase == Headers && (c != '\n' || s.accumulator != [])
    ensures var t := HeaderByte(cf, s, c); t.events == s.events && t.discard == s.discard && t.phase != Data
  {
  }

  lemma {:induction false} RunLink(ru: Rules, cf: Conf, bytes: string)
    requires ValidConf(cf) && cf.delimiter == ru.delimiter && cf.handler == HandlerOf(ru)
    ensures ValidParser(cf, INITIAL)
    ensures Linked(ru, Feed(cf, INITIAL, bytes))
    ensures Feed(cf, INITIAL, bytes).phase != Data ==> !Feed(cf, INITIAL, bytes).discard
  {
    if bytes == [] {
      assert Flat([]) == [] && PrintRest(ru.delimiter, []) == [];
      assert EMPTY.links[..0] == [];
    } else {
      RunLink(ru, cf, bytes[..|bytes| - 1]);
      PartsAreClean(cf, bytes[..|bytes| - 1]);
      StepLink(ru, cf, Feed(cf, INITIAL, bytes[..|bytes| - 1]), bytes[|bytes| - 1]);
    }
  }

  /** The fields the closing of the body prints: the finished ones, or the dummy. */
  function Passed(c: Chain, sent: seq<FormField>): seq<FormField> {
    if c.noContent then [FormField(DUMMY, [])] else sent
  }

  lemma {:induction false} ClosedIsPrinted(ru: Rules, c: Chain, sent: seq<FormField>)
    requires IsDelimiter(ru.delimiter) && Committed(ru, c, sent) && |c.links| == c.checkpoint
    requires Close(ru, c).Body?
    ensures Close(ru, c).text == PrintBody(ru.delimiter, Passed(c, sent))
  {
    var d := ru.delimiter;
    assert c.links[..c.checkpoint] == c.links;
    if c.noContent {
      assert sent == [];
      AppendBuilds(ru, c, [], DUMMY);
      PrintedFieldBuilt(d, [], FormField(DUMMY, []));
      assert [] + [FormField(DUMMY, [])] == [FormField(DUMMY, [])];
    } else {
      assert sent != [] ==> sent[|sent| - 1] in sent;
    }
  }

  lemma DummyIsClean()
    ensures DUMMY != [] && CleanName(DUMMY)
  {
    var s := DUMMY;
    assert forall i | 0 <= i < |s| :: s[i] != '\r' && s[i] != '\n' && s[i] != '"' && s[i] != '\0';
  }

  lemma {:induction false} FieldsOfClean(d: string, parts: seq<Part>)
    requires IsDelimiter(d) && forall p | p in parts :: CleanPart(d, p)
    ensures forall f | f in Fields(parts) :: CleanName(f.name) && !Occurs(f.value, Mark(d))
  {
    if parts != [] {
      var front, p := parts[..|parts| - 1], parts[|parts| - 1];
      FieldsOfClean(d, front);
      assert p in parts;
    }
  }

  /** For every request the parser accepts and every outcome of its parts: the body passed on is the
      printed list of the fields that were finished, and a parser with the same delimiter reads exactly
      these fields back, if and only if their names are readable. Only a name that ends in `filename=`
      or does not fit the other side's header buffer is not. */
  lemma {:induction false} ForwardedBodyMeansTheSame(ru: Rules, cf: Conf, request: string, reader: Conf)
    requires ValidConf(cf) && cf.delimiter == ru.delimiter && cf.handler == HandlerOf(ru)
    requires ValidParser(cf, INITIAL) && Feed(cf, INITIAL, request).phase == Finish
    requires Close(ru, After(ru, Feed(cf, INITIAL, request).events)).Body?
    requires ValidConf(reader) && reader.delimiter == ru.delimiter && AcceptsAll(reader)
    ensures var s := Feed(cf, INITIAL, request);
            var c := After(ru, s.events);
            var passed := Passed(c, Fields(Finished(s.events)));
            && Close(ru, c).text == PrintBody(ru.delimiter, passed)
            && (ComesBack(reader, passed) <==> forall f | f in passed :: ReadableName(reader, f.name))
  {
    var s := Feed(cf, INITIAL, request);
    var c, sent := After(ru, s.events), Sent(s.events);
    RunLink(ru, cf, request);
    ClosedIsPrinted(ru, c, sent);
    PartsAreClean(cf, request);
    FieldsOfClean(ru.delimiter, Finished(s.events));
    DummyIsClean();
    var passed := Passed(c, sent);
    assert !Occurs([], Mark(ru.delimiter));
    assert forall f | f in passed :: f.name != [] && CleanField(reader, f);
    PrintParse(reader, passed);
  }

  // --------------------------------------------------------------- size

  lemma {:induction false} FlatPrefix(links: seq<string>, k: nat)
    requires k <= |links|
    ensures |Flat(links[..k])| <= |Flat(links)|
  {
    assert links == links[..k] + links[k..];
    FlatAppend(links[..k], links[k..]);
  }

  lemma {:induction false} AppendLen(ru: Rules, c: Chain, name: string)
    requires IsDelimiter(ru.delimiter) && name != [] && AppendField(ru, c, name, []).Some?
    ensures |Flat(AppendField(ru, c, name, []).value.links)| == |Flat(c.links)| + FieldLen(ru, c, name, [])
  {
    var piece := [FieldDelimiter(ru, c), FIELD_PART1, name, FIELD_PART2];
    assert AppendField(ru, c, name, []).value.links == c.links + piece + [] == c.links + piece;
    FlatAppend(c.links, piece);
    FlatFour(FieldDelimiter(ru, c), FIELD_PART1, name, FIELD_PART2);
  }

  predicate Fits(ru: Rules, c: Chain) {
    |Flat(c.links)| <= c.bodyLen && (ru.maxBodyLen != 0 ==> |Flat(c.links)| <= ru.maxBodyLen)
  }

  lemma StartFits(ru: Rules, c: Chain, attrs: Attrs, events: seq<Event>)
    requires IsDelimiter(ru.delimiter) && events != [] && events[|events| - 1] == StartPart(attrs) && Fits(ru, c)
    ensures Fits(ru, Handle(ru, c, events).0)
  {
    var c1 := c.(isFile := attrs.fileName != []);
    if attrs.fieldName != [] && AppendField(ru, c1, attrs.fieldName, []).Some? {
      AppendLen(ru, c1, attrs.fieldName);
    }
  }

  lemma RolledBackFits(ru: Rules, c: Chain)
    requires IsDelimiter(ru.delimiter) && Fits(ru, c)
    ensures c.checkpoint <= |c.links| ==> Fits(ru, c.(links := c.links[..c.checkpoint]))
    ensures Fits(ru, c.(links := [], firstPart := true))
  {
    assert Flat([]) == [];
    if c.checkpoint <= |c.links| {
      FlatPrefix(c.links, c.checkpoint);
    }
  }

  lemma {:induction false} HandleFits(ru: Rules, c: Chain, events: seq<Event>)
    requires IsDelimiter(ru.delimiter) && events != [] && Fits(ru, c)
    ensures Fits(ru, Handle(ru, c, events).0)
  {
    match events[|events| - 1]
    case StartPart(attrs) => StartFits(ru, c, attrs, events);
    case FlushData(data) => FlatPush(c.links, data);
    case FinishPart =>
    case AbortPart => RolledBackFits(ru, c);
  }

  /** The chain never outgrows the limit, whatever calls are made: the length counter only errs upwards. */
  lemma {:induction false} ChainFits(ru: Rules, events: seq<Event>)
    requires IsDelimiter(ru.delimiter)
    ensures Fits(ru, After(ru, events))
  {
    if events == [] {
      assert Flat([]) == [];
    } else {
      ChainFits(ru, events[..|events| - 1]);
      HandleFits(ru, After(ru, events[..|events| - 1]), events);
    }
  }

  /** The closing delimiter is within the limit too, except behind a dummy field, which is added after
      the check. */
  lemma {:induction false} ClosedBodyFits(ru: Rules, events: seq<Event>, sent: seq<FormField>)
    requires IsDelimiter(ru.delimiter) && Committed(ru, After(ru, events), sent)
    requires ru.maxBodyLen != 0 && Close(ru, After(ru, events)).Body?
    ensures var c := After(ru, events);
            |Close(ru, c).text| <= ru.maxBodyLen
            <==> !c.noContent || FieldLen(ru, c, DUMMY, []) + |ru.delimiter| + 4 <= ru.maxBodyLen
  {
    var c := After(ru, events);
    ChainFits(ru, events);
    if c.noContent {
      AppendLen(ru, c, DUMMY);
      assert Flat([]) == [];
    }
  }
}
