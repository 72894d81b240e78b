/** Printing fields and parsing the result: which fields come back. */
module RoundTrip {
  import opened Matcher
  import opened PartHeader
  import opened Multipart
  import opened PartInvariant
  import opened FieldPrinter
  import opened Wrappers

  ghost predicate AcceptsAll(cf: Conf) {
    forall events :: cf.handler(events) == Accept
  }

  /** The printed header line fits the header buffer. */
  predicate HeaderFits(cf: Conf, name: string) {
    |LINE_START| + |name| + 1 < cf.maxHeaderLen
  }

  predicate ReadableName(cf: Conf, name: string) {
    HeaderFits(cf, name) && !EndsWith(name, "filename=")
  }

  /** The fields the module can print so that they are read back. */
  predicate Printable(cf: Conf, f: FormField)
    requires ValidConf(cf)
  {
    f.name != [] && CleanName(f.name) && ReadableName(cf, f.name) && !Occurs(f.value, Mark(cf.delimiter))
  }

  function AsPart(f: FormField): Part {
    Part(Attrs(f.name, [], []), f.value)
  }

  /** The parser stands behind a delimiter and has finished `parts`. */
  predicate Between(s: Parser, parts: seq<Part>) {
    && s.phase == AfterBoundary && s.boundaryStart == 0 && s.boundaryPos == 0
    && s.attrs == NO_ATTRS && !s.discard && s.output == [] && s.rc == Ok
    && Finished(s.events) == parts
  }

  lemma FeedOne(cf: Conf, s: Parser, c: char)
    requires ValidConf(cf) && ValidParser(cf, s)
    ensures Feed(cf, s, [c]) == Step(cf, s, c)
  {
    assert [c][..0] == [];
  }

  lemma FeedTwo(cf: Conf, s: Parser, a: char, b: char)
    requires ValidConf(cf) && ValidParser(cf, s)
    ensures Feed(cf, s, [a, b]) == Step(cf, Step(cf, s, a), b)
  {
    assert [a, b][..1] == [a];
    FeedOne(cf, s, a);
  }

  // ------------------------------------------------------------- headers

  lemma {:induction false} FeedLine(cf: Conf, s: Parser, text: string)
    requires ValidConf(cf) && ValidParser(cf, s) && s.phase == Headers
    requires Plain(text) && |s.accumulator| + |text| < cf.maxHeaderLen
    ensures Feed(cf, s, text) == s.(accumulator := s.accumulator + text)
  {
    if text == [] {
      assert s.accumulator + text == s.accumulator;
    } else {
      var front, c := text[..|text| - 1], text[|text| - 1];
      FeedLine(cf, s, front);
      assert c in text;
      assert s.accumulator + front + [c] == s.accumulator + text;
    }
  }

  lemma {:induction false} FeedLongLine(cf: Conf, s: Parser, text: string)
    requires ValidConf(cf) && ValidParser(cf, s) && s.phase == Headers && s.accumulator == []
    requires text != [] && Plain(text) && |text| >= cf.maxHeaderLen
    ensures Feed(cf, s, text).phase == Finish && Feed(cf, s, text).rc == Malformed
  {
    var front, c := text[..|text| - 1], text[|text| - 1];
    assert c in text;
    if 0 < |front| < cf.maxHeaderLen {
      FeedLine(cf, s, front);
    } else if front != [] {
      FeedLongLine(cf, s, front);
    }
  }

  function HeaderLine(name: string): string {
    LINE_START + name + "\""
  }

  lemma HeaderText(name: string)
    ensures FIELD_PART1 + name + FIELD_PART2 == CRLF + (HeaderLine(name) + (CRLF + CRLF))
  {
  }

  lemma PlainHeader(name: string)
    requires CleanName(name)
    ensures Plain(HeaderLine(name))
  {
    var start := LINE_START;
    assert forall i | 0 <= i < |start| :: start[i] != '\r' && start[i] != '\n';
    var line := HeaderLine(name);
    forall i | 0 <= i < |line| ensures line[i] != '\r' && line[i] != '\n' {
      if |start| <= i < |start| + |name| {
        assert line[i] == name[i - |start|] && name[i - |start|] in name;
      }
    }
  }

  /** The delimiter's line break opens the headers. */
  lemma OpenHeaders(cf: Conf, s: Parser)
    requires ValidConf(cf) && ValidParser(cf, s) && s.phase == AfterBoundary
    ensures Feed(cf, s, CRLF) == s.(phase := Headers, accumulator := [])
  {
    FeedTwo(cf, s, '\r', '\n');
  }

  /** The name line, up to its line break. */
  lemma ReadNameLine(cf: Conf, s: Parser, name: string)
    requires ValidConf(cf) && ValidParser(cf, s) && s.phase == Headers && s.accumulator == [] && s.attrs == NO_ATTRS
    requires CleanName(name)
    ensures var t := Feed(cf, s, HeaderLine(name) + CRLF);
            if ReadableName(cf, name) then t == s.(attrs := Attrs(name, [], []))
            else t.phase == Finish && t.rc == Malformed
  {
    PlainHeader(name);
    var line := HeaderLine(name);
    FeedAppend(cf, s, line, CRLF);
    if HeaderFits(cf, name) {
      FeedLine(cf, s, line);
      assert [] + line == line;
      FeedTwo(cf, s.(accumulator := line), '\r', '\n');
      PrintedLine(name);
    } else {
      FeedLongLine(cf, s, line);
      FeedTwo(cf, Feed(cf, s, line), '\r', '\n');
    }
  }

  /** The headers of a printed field, whatever the handlers answer. */
  lemma ReadHeadersStart(cf: Conf, s: Parser, parts: seq<Part>, name: string)
    requires ValidConf(cf) && ValidParser(cf, s) && Between(s, parts) && CleanName(name)
    ensures var t := Feed(cf, s, FIELD_PART1 + name + FIELD_PART2);
            if ReadableName(cf, name) then
              t == Start(cf, s.(phase := Headers, accumulator := [], attrs := Attrs(name, [], [])))
            else t.phase == Finish && t.rc == Malformed
  {
    HeaderText(name);
    var h := s.(phase := Headers, accumulator := []);
    OpenHeaders(cf, s);
    FeedAppend(cf, s, CRLF, HeaderLine(name) + (CRLF + CRLF));
    assert HeaderLine(name) + (CRLF + CRLF) == HeaderLine(name) + CRLF + CRLF;
    FeedAppend(cf, h, HeaderLine(name) + CRLF, CRLF);
    ReadNameLine(cf, h, name);
    FeedTwo(cf, Feed(cf, h, HeaderLine(name) + CRLF), '\r', '\n');
  }

  lemma ReadHeaders(cf: Conf, s: Parser, parts: seq<Part>, name: string)
    requires ValidConf(cf) && ValidParser(cf, s) && Between(s, parts) && AcceptsAll(cf) && CleanName(name)
    ensures var t := Feed(cf, s, FIELD_PART1 + name + FIELD_PART2);
            var attrs := Attrs(name, [], []);
            if ReadableName(cf, name) then
              t == s.(phase := Data, accumulator := [], attrs := attrs, events := s.events + [StartPart(attrs)])
            else t.phase == Finish && t.rc == Malformed
  {
    ReadHeadersStart(cf, s, parts, name);
  }

  // ---------------------------------------------------------------- body

  /** The data state is the matcher with sinks. */
  lemma {:induction false} FeedData(cf: Conf, s: Parser, text: string)
    requires ValidConf(cf) && ValidParser(cf, s) && s.phase == Data
    ensures match Body(cf.delimiter, Match(s.boundaryStart, s.boundaryPos), text)
            case Open(m, out) =>
              Feed(cf, s, text) == PutAll(cf, s, out).(boundaryStart := m.start, boundaryPos := m.pos)
            case Hit(start, out, n) =>
              n == |text| ==>
                Feed(cf, s, text)
                == EndPart(cf, PutAll(cf, s, out).(boundaryStart := start, boundaryPos := |cf.delimiter|))
  {
    var d, m0 := cf.delimiter, Match(s.boundaryStart, s.boundaryPos);
    if text != [] {
      var front, c := text[..|text| - 1], text[|text| - 1];
      FeedData(cf, s, front);
      match Body(d, m0, front) {
        case Hit(_, _, n) =>
          HitLength(d, m0, front);
        case Open(m, out) =>
          FeedDataByte(cf, s, m, out, c);
      }
    }
  }

  lemma {:induction false} HitLength(d: string, m: Match, s: string)
    requires IsDelimiter(d) && Valid(d, m) && Body(d, m, s).Hit?
    ensures Body(d, m, s).length <= |s|
  {
    if s != [] && Body(d, m, s[..|s| - 1]).Hit? {
      HitLength(d, m, s[..|s| - 1]);
    }
  }

  lemma FeedDataByte(cf: Conf, s: Parser, m: Match, out: string, c: char)
    requires ValidConf(cf) && ValidParser(cf, s) && s.phase == Data && Valid(cf.delimiter, m)
    ensures var r := Advance(cf.delimiter, m, c);
            var t := PutAll(cf, s, out).(boundaryStart := m.start, boundaryPos := m.pos);
            var u := PutAll(cf, s, out + r.1).(boundaryStart := r.0.start, boundaryPos := r.0.pos);
            && ValidParser(cf, t)
            && Step(cf, t, c) == if r.0.pos == |cf.delimiter| then EndPart(cf, u) else u
  {
    var r := Advance(cf.delimiter, m, c);
    PutAllAppend(cf, s, out, r.1);
    PutAllMoved(cf, PutAll(cf, s, out), r.1, m.start, m.pos);
  }

  /** The value and the delimiter behind it, which starts with a carriage return. */
  lemma ValueHits(d: string, value: string)
    requires IsDelimiter(d) && !Occurs(value, Mark(d))
    ensures Body(d, Match(0, 0), value + d) == Hit(0, value, |value + d|)
  {
    DelimiterChars(d);
    var body, mark := value + "\r", Mark(d);
    var s := body + mark;
    assert s == value + d;
    forall i | 0 <= i < |body| ensures !OccursAt(s, mark, i) {
      if OccursAt(s, mark, i) {
        NotAcrossCr(d, value, i);
        assert s[i..i + |mark|] == value[i..i + |mark|];
        assert OccursAt(value, mark, i);
      }
    }
    BodyHit(d, 0, body);
    assert body[..|body| - 1] == value;
  }

  lemma NotAcrossCr(d: string, value: string, i: int)
    requires IsDelimiter(d) && 0 <= i <= |value| && OccursAt(value + "\r" + Mark(d), Mark(d), i)
    ensures i + |Mark(d)| <= |value|
  {
    DelimiterChars(d);
    var s, mark := value + "\r" + Mark(d), Mark(d);
    assert forall k | i <= k < i + |mark| :: s[k] == s[i..i + |mark|][k - i] == mark[k - i] != '\r';
    assert s[|value|] == '\r';
  }

  /** Every flush is accepted, so nothing is discarded. */
  lemma {:induction false} PutAllAccepted(cf: Conf, s: Parser, out: string)
    requires ValidConf(cf) && AcceptsAll(cf) && !s.discard
    ensures !PutAll(cf, s, out).discard
  {
    if out != [] {
      PutAllAccepted(cf, s, out[..|out| - 1]);
    }
  }

  lemma ReadValue(cf: Conf, s: Parser, parts: seq<Part>, value: string)
    requires ValidConf(cf) && ValidParser(cf, s) && AcceptsAll(cf)
    requires s.phase == Data && s.boundaryStart == 0 && s.boundaryPos == 0 && !s.discard && s.rc == Ok
    requires Finished(s.events) == parts && CurrentAttrs(s.events) == s.attrs && Emitted(s) == []
    requires !Occurs(value, Mark(cf.delimiter))
    ensures Between(Feed(cf, s, value + cf.delimiter), parts + [Part(s.attrs, value)])
  {
    var d := cf.delimiter;
    ValueHits(d, value);
    FeedData(cf, s, value + d);
    PutAllEmits(cf, s, value);
    PutAllAccepted(cf, s, value);
    assert [] + value == value;
    EndAccepted(cf, PutAll(cf, s, value).(boundaryStart := 0, boundaryPos := |d|));
  }

  lemma EndAccepted(cf: Conf, t: Parser)
    requires AcceptsAll(cf) && !t.discard && t.boundaryStart == 0 && t.rc == Ok
    ensures Between(EndPart(cf, t), Finished(t.events) + [Part(CurrentAttrs(t.events), Emitted(t))])
  {
    var u := t.(phase := AfterBoundary, boundaryPos := t.boundaryStart);
    FlushEmits(cf, u);
    var v := FlushOutput(cf, u);
    assert CurrentData(v.events) + [] == CurrentData(v.events);
    EventAppended(v.events, FinishPart);
  }

  // -------------------------------------------------------------- fields

  /** A field with the delimiter behind it. */
  function Group(d: string, f: FormField): string {
    if f.name == [] then [] else FIELD_PART1 + f.name + FIELD_PART2 + (f.value + d)
  }

  function Groups(d: string, fs: seq<FormField>): string {
    if fs == [] then [] else Groups(d, fs[..|fs| - 1]) + Group(d, fs[|fs| - 1])
  }

  lemma {:induction false} Regroup(d: string, fs: seq<FormField>)
    ensures PrintRest(d, fs) + d == d + Groups(d, fs)
  {
    if fs == [] {
      assert [] + d == d + [];
    } else {
      var front, f := fs[..|fs| - 1], fs[|fs| - 1];
      Regroup(d, front);
      RegroupField(PrintRest(d, front), Groups(d, front), d, f);
    }
  }

  lemma {:induction false} RegroupField(rest: string, groups: string, d: string, f: FormField)
    requires rest + d == d + groups
    ensures rest + PrintField(d, f) + d == d + (groups + Group(d, f))
  {
    if f.name == [] {
      assert rest + [] == rest && groups + [] == groups;
    } else {
      var header := FIELD_PART1 + f.name + FIELD_PART2;
      RegroupText(rest, groups, d, header, f.value);
      assert PrintField(d, f) == d + header + f.value;
    }
  }

  lemma RegroupText(rest: string, groups: string, d: string, header: string, value: string)
    requires rest + d == d + groups
    ensures rest + (d + header + value) + d == d + (groups + (header + (value + d)))
  {
    assert rest + (d + header + value) + d == (rest + d) + (header + (value + d));
  }

  /** The parts of fields that are printed at all. */
  function AsParts(fs: seq<FormField>): seq<Part> {
    if fs == [] then []
    else
      var f := fs[|fs| - 1];
      AsParts(fs[..|fs| - 1]) + (if f.name == [] then [] else [AsPart(f)])
  }

  predicate CleanField(cf: Conf, f: FormField)
    requires ValidConf(cf)
  {
    CleanName(f.name) && !Occurs(f.value, Mark(cf.delimiter))
  }

  lemma ReadGroup(cf: Conf, s: Parser, parts: seq<Part>, f: FormField)
    requires ValidConf(cf) && ValidParser(cf, s) && AcceptsAll(cf) && Between(s, parts)
    requires f.name != [] && CleanField(cf, f)
    ensures var t := Feed(cf, s, Group(cf.delimiter, f));
            if ReadableName(cf, f.name) then Between(t, parts + [AsPart(f)]) else t.phase == Finish && t.rc == Malformed
  {
    var header, tail := FIELD_PART1 + f.name + FIELD_PART2, f.value + cf.delimiter;
    FeedAppend(cf, s, header, tail);
    ReadHeaders(cf, s, parts, f.name);
    var t := Feed(cf, s, header);
    if ReadableName(cf, f.name) {
      EventAppended(s.events, StartPart(t.attrs));
      assert Emitted(t) == [];
      ReadValue(cf, t, parts, f.value);
    } else {
      FeedFinished(cf, t, tail);
    }
  }

  /** Clean fields come back one by one up to the first whose name cannot be read. */
  lemma {:induction false} ReadGroups(cf: Conf, s: Parser, fs: seq<FormField>)
    requires ValidConf(cf) && ValidParser(cf, s) && AcceptsAll(cf) && Between(s, [])
    requires forall f | f in fs :: f.name == [] || CleanField(cf, f)
    ensures var t := Feed(cf, s, Groups(cf.delimiter, fs));
            if forall f | f in fs :: f.name == [] || ReadableName(cf, f.name) then Between(t, AsParts(fs))
            else t.phase == Finish && t.rc == Malformed
  {
    if fs != [] {
      var d, front, f := cf.delimiter, fs[..|fs| - 1], fs[|fs| - 1];
      assert fs == front + [f];
      ReadGroups(cf, s, front);
      FeedAppend(cf, s, Groups(d, front), Group(d, f));
      var t := Feed(cf, s, Groups(d, front));
      if t.phase == Finish {
        FeedFinished(cf, t, Group(d, f));
      } else if f.name != [] {
        ReadGroup(cf, t, AsParts(front), f);
      }
    }
  }

  // ------------------------------------------------------------ whole body

  /** Where the first k characters behind the delimiter's CR LF lead. */
  function Sought(cf: Conf, k: nat): Parser {
    if 2 + k == |cf.delimiter| then INITIAL.(phase := AfterBoundary, boundaryStart := 0, boundaryPos := 0)
    else INITIAL.(boundaryPos := 2 + k)
  }

  lemma {:induction false} FeedSeek(cf: Conf, k: nat, text: string)
    requires ValidConf(cf) && 2 + k <= |cf.delimiter| && text == cf.delimiter[2..2 + k]
    ensures ValidParser(cf, INITIAL) && Feed(cf, INITIAL, text) == Sought(cf, k)
    decreases k
  {
    if k > 0 {
      var front := text[..k - 1];
      assert text == front + [cf.delimiter[1 + k]];
      FeedSeek(cf, k - 1, front);
      SeekMore(cf, front, k - 1, Sought(cf, k - 1));
    }
  }

  lemma SeekMore(cf: Conf, front: string, k: nat, s: Parser)
    requires ValidConf(cf) && 2 + k < |cf.delimiter| && ValidParser(cf, INITIAL) && Feed(cf, INITIAL, front) == s
    requires s == INITIAL.(boundaryPos := 2 + k)
    ensures Feed(cf, INITIAL, front + [cf.delimiter[2 + k]]) == Sought(cf, k + 1)
  {
    FeedAppend(cf, INITIAL, front, [cf.delimiter[2 + k]]);
    FeedOne(cf, s, cf.delimiter[2 + k]);
  }

  /** The first delimiter, with or without its line break. */
  lemma FirstDelimiter(cf: Conf)
    requires ValidConf(cf)
    ensures ValidParser(cf, INITIAL)
    ensures Between(Feed(cf, INITIAL, cf.delimiter[2..]), []) && Between(Feed(cf, INITIAL, cf.delimiter), [])
  {
    var d := cf.delimiter;
    DelimiterChars(d);
    FeedSeek(cf, |d| - 2, d[2..]);
    FeedTwo(cf, INITIAL, d[0], d[1]);
    FeedAppend(cf, INITIAL, [d[0], d[1]], d[2..]);
    assert d == [d[0], d[1]] + d[2..];
  }

  lemma {:induction false} BodyShape(d: string, fs: seq<FormField>)
    requires IsDelimiter(d)
    ensures PrintBody(d, fs) == (if PrintRest(d, fs) == [] then d else d[2..]) + Groups(d, fs) + "--\r\n"
  {
    Regroup(d, fs);
    var rest := PrintRest(d, fs);
    if rest == [] {
      assert [] + d == d == d + [];
      assert |Groups(d, fs)| == 0;
    } else {
      assert rest[2..] + d == (rest + d)[2..] == (d + Groups(d, fs))[2..] == d[2..] + Groups(d, fs);
    }
  }

  lemma CloseBody(cf: Conf, s: Parser)
    requires ValidConf(cf) && ValidParser(cf, s)
    ensures s.phase == AfterBoundary ==> Feed(cf, s, "--\r\n") == s.(phase := Finish)
    ensures s.phase == Finish ==> Feed(cf, s, "--\r\n") == s
  {
    FeedTwo(cf, s, '-', '-');
    FeedAppend(cf, s, "--", "\r\n");
    FeedTwo(cf, Feed(cf, s, "--"), '\r', '\n');
    assert "--\r\n" == "--" + "\r\n";
  }

  /** What the parser makes of a printed body of clean fields. */
  lemma ParsePrinted(cf: Conf, fs: seq<FormField>)
    requires ValidConf(cf) && AcceptsAll(cf)
    requires forall f | f in fs :: f.name == [] || CleanField(cf, f)
    ensures ValidParser(cf, INITIAL)
    ensures var t := Feed(cf, INITIAL, PrintBody(cf.delimiter, fs));
            && t.phase == Finish
            && if forall f | f in fs :: f.name == [] || ReadableName(cf, f.name) then
                 t.rc == Ok && Finished(t.events) == AsParts(fs)
               else t.rc == Malformed
  {
    var d := cf.delimiter;
    FirstDelimiter(cf);
    BodyShape(d, fs);
    var first := if PrintRest(d, fs) == [] then d else d[2..];
    var s0 := Feed(cf, INITIAL, first);
    ReadGroups(cf, s0, fs);
    FeedAppend(cf, INITIAL, first, Groups(d, fs));
    FeedAppend(cf, INITIAL, first + Groups(d, fs), "--\r\n");
    CloseBody(cf, Feed(cf, s0, Groups(d, fs)));
  }

  /** Parsing the printed body succeeds and yields exactly the fields, in order. */
  ghost predicate ComesBack(cf: Conf, fs: seq<FormField>)
    requires ValidConf(cf)
  {
    var t := Feed(cf, INITIAL, PrintBody(cf.delimiter, fs));
    t.phase == Finish && t.rc == Ok && Finished(t.events) == seq(|fs|, i requires 0 <= i < |fs| => AsPart(fs[i]))
  }

  lemma {:induction false} AllNamed(fs: seq<FormField>)
    requires forall f | f in fs :: f.name != []
    ensures AsParts(fs) == seq(|fs|, i requires 0 <= i < |fs| => AsPart(fs[i]))
  {
    if fs != [] {
      AllNamed(fs[..|fs| - 1]);
    }
  }

  lemma {:induction false} SomeUnnamed(fs: seq<FormField>)
    ensures |AsParts(fs)| <= |fs|
    ensures |AsParts(fs)| == |fs| ==> forall f | f in fs :: f.name != []
  {
    if fs != [] {
      var front, f := fs[..|fs| - 1], fs[|fs| - 1];
      SomeUnnamed(front);
      assert fs == front + [f];
    }
  }

  /** Printer and parser undo each other on exactly the lists of printable fields. */
  lemma PrintParse(cf: Conf, fs: seq<FormField>)
    requires ValidConf(cf) && AcceptsAll(cf)
    ensures ComesBack(cf, fs) <==> forall f | f in fs :: Printable(cf, f)
  {
    var t := Feed(cf, INITIAL, PrintBody(cf.delimiter, fs));
    if forall f | f in fs :: Printable(cf, f) {
      ParsePrinted(cf, fs);
      AllNamed(fs);
    }
    if ComesBack(cf, fs) {
      PartsAreClean(cf, PrintBody(cf.delimiter, fs));
      forall i | 0 <= i < |fs| ensures CleanField(cf, fs[i]) {
        var p := Finished(t.events)[i];
        assert p == AsPart(fs[i]) && p in Finished(t.events);
      }
      assert forall f | f in fs :: CleanField(cf, f);
      ParsePrinted(cf, fs);
      SomeUnnamed(fs);
    }
  }
}
