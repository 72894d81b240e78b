/** Where the size of the output buffer does matter: a refused flush is charged to the length of the body up
    to the byte where the buffer filled, and aborting the part does not give it back. */
module SizeDependence {
  import opened Sequences
  import opened Matcher
  import opened PartHeader
  import opened Multipart
  import opened PartInvariant
  import opened FieldPrinter
  import opened RoundTrip
  import opened OutputChain
  import opened Forwarding
  import opened SizeIndependence
  import opened Wrappers

  // --------------------------------------------- a field without room

  /** Data that fits in the buffer stays there. */
  lemma {:induction false} PutAllHeld(cf: Conf, s: Parser, out: string)
    requires ValidConf(cf) && !s.discard && |s.output| + |out| < cf.bufferSize
    ensures PutAll(cf, s, out) == s.(output := s.output + out)
  {
    if out == [] {
      assert s.output + out == s.output;
    } else {
      PutAllHeld(cf, s, out[..|out| - 1]);
      assert s.output + out[..|out| - 1] + [out[|out| - 1]] == s.output + out;
    }
  }

  /** A field is being received, with no data in the buffer. */
  predicate InField(ru: Rules, s: Parser)
    requires IsDelimiter(ru.delimiter)
  {
    !s.discard && s.output == [] && !After(ru, s.events).isFile
  }

  lemma FlushLimited(ru: Rules, cf: Conf, s: Parser, t: Parser)
    requires Own(ru, cf) && ru.maxBodyLen != 0 && !s.discard && s.output != [] && !After(ru, s.events).isFile
    requires t == FlushOutput(cf, s)
    ensures var c, c1 := After(ru, s.events), After(ru, t.events);
            && t == s.(output := [], events := t.events, discard := t.discard)
            && Finished(t.events) == Finished(s.events)
            && !c1.isFile && c1.checkpoint == c.checkpoint && c1.noContent == c.noContent
            && (t.discard <==> c.bodyLen + |s.output| > ru.maxBodyLen)
            && c1.bodyLen == c.bodyLen + (if t.discard then 0 else |s.output|)
  {
    AfterEvent(ru, s.events, FlushData(s.output));
    AnswerIs(ru, s.events, FlushData(s.output));
    EventAppended(s.events, FlushData(s.output));
  }

  /** From s on n bytes of a field were given to a buffer of one byte. */
  predicate Charged(ru: Rules, s: Parser, n: nat, t: Parser)
    requires IsDelimiter(ru.delimiter)
  {
    var c, c1 := After(ru, s.events), After(ru, t.events);
    && t.output == [] && Finished(t.events) == Finished(s.events)
    && !c1.isFile && c1.checkpoint == c.checkpoint && c1.noContent == c.noContent
    && (t.discard <==> c.bodyLen + n > ru.maxBodyLen)
    && c1.bodyLen == if t.discard then ru.maxBodyLen else c.bodyLen + n
  }

  lemma PutcCharged(ru: Rules, cf: Conf, s: Parser, n: nat, t: Parser, x: char)
    requires Own(ru, cf) && cf.bufferSize == 1 && ru.maxBodyLen != 0 && Charged(ru, s, n, t)
    ensures Charged(ru, s, n + 1, Putc(cf, t, x))
  {
    if !t.discard {
      var u := t.(output := t.output + [x]);
      assert |u.output| == 1;
      FlushLimited(ru, cf, u, FlushOutput(cf, u));
    }
  }

  /** In a buffer of one byte a field is charged up to the limit before it is refused. */
  lemma {:induction false} PutAllCharged(ru: Rules, cf: Conf, s: Parser, out: string)
    requires Own(ru, cf) && cf.bufferSize == 1 && ru.maxBodyLen != 0 && InField(ru, s)
    requires After(ru, s.events).bodyLen <= ru.maxBodyLen
    ensures Charged(ru, s, |out|, PutAll(cf, s, out))
  {
    if out != [] {
      var front := out[..|out| - 1];
      PutAllCharged(ru, cf, s, front);
      PutcCharged(ru, cf, s, |front|, PutAll(cf, s, front), out[|out| - 1]);
    }
  }

  /** The part is aborted; what was charged for it is not given back. */
  lemma Aborted(ru: Rules, cf: Conf, s: Parser, t: Parser)
    requires Own(ru, cf) && s.discard && s.output == [] && t == EndPart(cf, s)
    ensures var c, c1 := After(ru, s.events), After(ru, t.events);
            && t == s.(phase := AfterBoundary, boundaryPos := s.boundaryStart, events := t.events, attrs := NO_ATTRS,
                discard := false)
            && Finished(t.events) == Finished(s.events) && c1.bodyLen == c.bodyLen && c1.noContent == c.noContent
            && (c.checkpoint == 0 ==> c1.checkpoint == 0 && c1.links == [] && c1.firstPart)
  {
    AfterEvent(ru, s.events, AbortPart);
    EventAppended(s.events, AbortPart);
  }

  /** A first field that is passed on. */
  lemma FieldStarts(ru: Rules, cf: Conf, s: Parser, name: string, t: Parser)
    requires Own(ru, cf) && s.phase == Headers && !s.discard && s.output == [] && s.attrs == Attrs(name, [], [])
    requires name != [] && ru.passes(name) && After(ru, s.events).firstPart && t == Start(cf, s) && ru.maxBodyLen != 0
    ensures var c, c1, len := After(ru, s.events), After(ru, t.events), FirstFieldLen(ru, name);
            Finished(t.events) == Finished(s.events)
            && if c.bodyLen + len > ru.maxBodyLen then t.phase == Finish && t.rc == Refused
               else t == s.(phase := Data, events := t.events) && CurrentAttrs(t.events) == s.attrs && Emitted(t) == []
                    && InField(ru, t) && c1.bodyLen == c.bodyLen + 2 * len && c1.checkpoint == c.checkpoint
                    && !c1.noContent
  {
    var e := StartPart(s.attrs);
    AfterEvent(ru, s.events, e);
    AnswerIs(ru, s.events, e);
    EventAppended(s.events, e);
  }

  /** Behind the headers of a first field, and behind its value. */
  lemma ReadToData(ru: Rules, cf: Conf, s: Parser, name: string) returns (t: Parser)
    requires Own(ru, cf) && ValidParser(cf, s) && Between(s, []) && CleanName(name) && ReadableName(cf, name)
    requires name != [] && ru.passes(name) && After(ru, s.events).firstPart && ru.maxBodyLen != 0
    ensures t == Feed(cf, s, FIELD_PART1 + name + FIELD_PART2) && Finished(t.events) == []
    ensures var c, c1, len := After(ru, s.events), After(ru, t.events), FirstFieldLen(ru, name);
            if c.bodyLen + len > ru.maxBodyLen then t.phase == Finish && t.rc == Refused
            else && t == s.(phase := Data, accumulator := [], attrs := Attrs(name, [], []), events := t.events)
                 && CurrentAttrs(t.events) == t.attrs && Emitted(t) == [] && InField(ru, t)
                 && c1.bodyLen == c.bodyLen + 2 * len && c1.checkpoint == c.checkpoint && !c1.noContent
  {
    ReadHeadersStart(cf, s, [], name);
    t := Feed(cf, s, FIELD_PART1 + name + FIELD_PART2);
    FieldStarts(ru, cf, s.(phase := Headers, accumulator := [], attrs := Attrs(name, [], [])), name, t);
  }

  lemma ReadToEnd(cf: Conf, s: Parser, value: string)
    requires ValidConf(cf) && ValidParser(cf, s) && s.phase == Data && s.boundaryStart == 0 && s.boundaryPos == 0
    requires !Occurs(value, Mark(cf.delimiter))
    ensures Feed(cf, s, value + cf.delimiter)
         == EndPart(cf, FlushOutput(cf, PutAll(cf, s, value)).(boundaryStart := 0, boundaryPos := |cf.delimiter|))
  {
    ValueHits(cf.delimiter, value);
    FeedData(cf, s, value + cf.delimiter);
  }

  /** Where a parser stands when its first field was refused for its length, with `charge` on the account. */
  predicate Refused1(ru: Rules, t: Parser, charge: nat)
    requires IsDelimiter(ru.delimiter)
  {
    var c := After(ru, t.events);
    Between(t, []) && c.checkpoint == 0 && c.firstPart && !c.noContent && c.bodyLen == charge
  }

  /** What is on the account when data is refused. */
  function ChargeOf(ru: Rules, cf: Conf, s: Parser): nat
    requires IsDelimiter(ru.delimiter)
  {
    if cf.bufferSize == 1 then ru.maxBodyLen else After(ru, s.events).bodyLen
  }

  lemma DataRefused(ru: Rules, cf: Conf, s: Parser, value: string) returns (v: Parser)
    requires Own(ru, cf) && ru.maxBodyLen != 0 && InField(ru, s) && (cf.bufferSize == 1 || cf.bufferSize > |value|)
    requires After(ru, s.events).bodyLen <= ru.maxBodyLen < After(ru, s.events).bodyLen + |value|
    ensures v == FlushOutput(cf, PutAll(cf, s, value)) == s.(events := v.events, discard := true)
    ensures Finished(v.events) == Finished(s.events) && After(ru, v.events).checkpoint == After(ru, s.events).checkpoint
    ensures After(ru, v.events).noContent == After(ru, s.events).noContent
    ensures After(ru, v.events).bodyLen == ChargeOf(ru, cf, s)
  {
    var u := PutAll(cf, s, value);
    v := FlushOutput(cf, u);
    if cf.bufferSize == 1 {
      PutAllCharged(ru, cf, s, value);
    } else {
      PutAllHeld(cf, s, value);
      assert [] + value == value;
      FlushLimited(ru, cf, u, v);
    }
  }

  lemma FieldRefused(ru: Rules, cf: Conf, s: Parser, value: string)
    requires Own(ru, cf) && ValidParser(cf, s) && ru.maxBodyLen != 0 && InField(ru, s)
             && !Occurs(value, Mark(cf.delimiter))
    requires s.phase == Data && s.boundaryStart == 0 && s.boundaryPos == 0 && s.rc == Ok && Finished(s.events) == []
    requires After(ru, s.events).bodyLen <= ru.maxBodyLen < After(ru, s.events).bodyLen + |value|
    requires After(ru, s.events).checkpoint == 0 && !After(ru, s.events).noContent
    requires cf.bufferSize == 1 || cf.bufferSize > |value|
    ensures Refused1(ru, Feed(cf, s, value + cf.delimiter), ChargeOf(ru, cf, s))
  {
    ReadToEnd(cf, s, value);
    var v := DataRefused(ru, cf, s, value);
    var w := v.(boundaryStart := 0, boundaryPos := |cf.delimiter|);
    Aborted(ru, cf, w, EndPart(cf, w));
  }

  /** The first field of a request, too long for the limit. */
  lemma FirstGroup(ru: Rules, cf: Conf, f: FormField) returns (t: Parser)
    requires Own(ru, cf) && Printable(cf, f) && ru.passes(f.name) && (cf.bufferSize == 1 || cf.bufferSize > |f.value|)
    requires 0 < 2 * FirstFieldLen(ru, f.name) <= ru.maxBodyLen < 2 * FirstFieldLen(ru, f.name) + |f.value|
    ensures t == Feed(cf, INITIAL, cf.delimiter[2..] + Group(cf.delimiter, f)) && ValidParser(cf, t)
    ensures Refused1(ru, t, if cf.bufferSize == 1 then ru.maxBodyLen else 2 * FirstFieldLen(ru, f.name))
  {
    var d := cf.delimiter;
    FirstDelimiter(cf);
    FirstSilent(ru, cf);
    var s0 := Feed(cf, INITIAL, d[2..]);
    FeedAppend(cf, INITIAL, d[2..], Group(d, f));
    FeedAppend(cf, s0, FIELD_PART1 + f.name + FIELD_PART2, f.value + d);
    var s1 := ReadToData(ru, cf, s0, f.name);
    FieldRefused(ru, cf, s1, f.value);
    t := Feed(cf, s1, f.value + d);
  }

  lemma FirstSilent(ru: Rules, cf: Conf)
    requires Own(ru, cf)
    ensures ValidParser(cf, INITIAL)
    ensures Feed(cf, INITIAL, cf.delimiter[2..]).events == []
  {
    var d := cf.delimiter;
    FeedSeek(cf, |d| - 2, d[2..]);
  }

  /** A second field without a value: refused if the account is too high, or finished. */
  lemma SecondGroup(ru: Rules, cf: Conf, s: Parser, f: FormField, charge: nat) returns (t: Parser)
    requires Own(ru, cf) && ValidParser(cf, s) && Refused1(ru, s, charge) && ru.maxBodyLen != 0
    requires Printable(cf, f) && ru.passes(f.name) && f.value == []
    ensures t == Feed(cf, s, Group(cf.delimiter, f))
    ensures if charge + FirstFieldLen(ru, f.name) > ru.maxBodyLen then
              t.phase == Finish && t.rc == Refused && Finished(t.events) == []
            else Between(t, [AsPart(f)])
  {
    var d := cf.delimiter;
    FeedAppend(cf, s, FIELD_PART1 + f.name + FIELD_PART2, f.value + d);
    var s1 := ReadToData(ru, cf, s, f.name);
    t := Feed(cf, s1, f.value + d);
    if charge + FirstFieldLen(ru, f.name) > ru.maxBodyLen {
      FeedFinished(cf, s1, f.value + d);
    } else {
      ReadToEnd(cf, s1, []);
      EventAppended(s1.events, FinishPart);
    }
  }

  /** What becomes of a request with a field that is too long and a field without a value behind it. */
  lemma TwoFields(ru: Rules, cf: Conf, f: FormField, g: FormField)
    requires Own(ru, cf) && Printable(cf, f) && Printable(cf, g) && ru.passes(f.name) && ru.passes(g.name)
             && g.value == []
    requires cf.bufferSize == 1 || cf.bufferSize > |f.value|
    requires 0 < 2 * FirstFieldLen(ru, f.name) <= ru.maxBodyLen < 2 * FirstFieldLen(ru, f.name) + |f.value|
    ensures ValidParser(cf, INITIAL)
    ensures var t := Feed(cf, INITIAL, PrintBody(cf.delimiter, [f, g]));
            var charge := if cf.bufferSize == 1 then ru.maxBodyLen else 2 * FirstFieldLen(ru, f.name);
            t.phase == Finish
            && if charge + FirstFieldLen(ru, g.name) > ru.maxBodyLen then t.rc == Refused && Finished(t.events) == []
               else t.rc == Ok && Finished(t.events) == [AsPart(g)]
  {
    var d := cf.delimiter;
    var t := FirstGroup(ru, cf, f);
    var charge := if cf.bufferSize == 1 then ru.maxBodyLen else 2 * FirstFieldLen(ru, f.name);
    var u := SecondGroup(ru, cf, t, g, charge);
    TwoGroups(d, f, g);
    var first := d[2..] + Group(d, f);
    FeedAppend(cf, INITIAL, first, Group(d, g));
    FeedAppend(cf, INITIAL, first + Group(d, g), "--\r\n");
    CloseBody(cf, u);
  }

  lemma TwoGroups(d: string, f: FormField, g: FormField)
    requires IsDelimiter(d) && f.name != [] && g.name != []
    ensures PrintBody(d, [f, g]) == d[2..] + Group(d, f) + Group(d, g) + "--\r\n"
  {
    BodyShape(d, [f, g]);
    GroupsOfTwo(d, f, g);
    assert PrintRest(d, [f, g]) != [];
    Assoc(d[2..], Group(d, f), Group(d, g));
  }

  lemma GroupsOfTwo(d: string, f: FormField, g: FormField)
    ensures Groups(d, [f, g]) == Group(d, f) + Group(d, g)
  {
    assert [f, g][..1] == [f] && [f][..0] == [];
    assert Groups(d, []) + Group(d, f) == Group(d, f);
  }

  /** The length of the buffer decides about a request: a first field outgrows the limit; in a buffer of one
      byte it is charged up to the limit, and the second field is refused; in a buffer with room for its data
      it is not charged, and the second field is passed on. */
  lemma SizeMatters(ru: Rules, maxHeaderLen: nat, size: nat, f: FormField, g: FormField)
    requires IsDelimiter(ru.delimiter) && size > |f.value| && g.value == []
    requires Printable(ConfOf(ru, maxHeaderLen, 1), f) && Printable(ConfOf(ru, maxHeaderLen, 1), g)
    requires ru.passes(f.name) && ru.passes(g.name)
    requires var len := 2 * FirstFieldLen(ru, f.name);
             len + FirstFieldLen(ru, g.name) <= ru.maxBodyLen < len + |f.value|
    ensures var a, b := ConfOf(ru, maxHeaderLen, 1), ConfOf(ru, maxHeaderLen, size);
            && ValidParser(a, INITIAL) && ValidParser(b, INITIAL)
            && var request := PrintBody(ru.delimiter, [f, g]);
            var s, t := Feed(a, INITIAL, request), Feed(b, INITIAL, request);
            && s.phase == Finish && s.rc == Refused && Finished(s.events) == []
            && t.phase == Finish && t.rc == Ok && Finished(t.events) == [AsPart(g)]
  {
    TwoFields(ru, ConfOf(ru, maxHeaderLen, 1), f, g);
    TwoFields(ru, ConfOf(ru, maxHeaderLen, size), f, g);
  }

  lemma OneGroup(d: string, f: FormField)
    requires IsDelimiter(d) && f.name != []
    ensures PrintBody(d, [f]) == d[2..] + Group(d, f) + "--\r\n"
  {
    var fs := [f];
    BodyShape(d, fs);
    assert fs[..0] == [];
    assert Groups(d, fs) == [] + Group(d, f) == Group(d, f);
    assert PrintRest(d, fs) != [];
  }

  lemma OneField(ru: Rules, cf: Conf, f: FormField)
    requires Own(ru, cf) && Printable(cf, f) && ru.passes(f.name) && (cf.bufferSize == 1 || cf.bufferSize > |f.value|)
    requires 0 < 2 * FirstFieldLen(ru, f.name) <= ru.maxBodyLen < 2 * FirstFieldLen(ru, f.name) + |f.value|
    ensures ValidParser(cf, INITIAL)
    ensures var t := Feed(cf, INITIAL, PrintBody(cf.delimiter, [f]));
            && t.phase == Finish && t.rc == Ok && Finished(t.events) == []
            && !After(ru, t.events).noContent
            && After(ru, t.events).bodyLen == if cf.bufferSize == 1 then ru.maxBodyLen
                else 2 * FirstFieldLen(ru, f.name)
  {
    var d := cf.delimiter;
    var t := FirstGroup(ru, cf, f);
    OneGroup(d, f);
    FeedAppend(cf, INITIAL, d[2..] + Group(d, f), "--\r\n");
    CloseBody(cf, t);
  }

  /** As soon as the limit has room for the head of one field and the closing delimiter, some request of that
      one field is answered 413 with a buffer of one byte and passed on with a larger one. */
  lemma SizeDecides(ru: Rules, maxHeaderLen: nat, name: string) returns (size: nat, request: string)
    requires IsDelimiter(ru.delimiter) && Printable(ConfOf(ru, maxHeaderLen, 1), FormField(name, [])) && ru.passes(name)
    requires 2 * FirstFieldLen(ru, name) + |ru.delimiter| + 4 <= ru.maxBodyLen
    ensures var a, b := ConfOf(ru, maxHeaderLen, 1), ConfOf(ru, maxHeaderLen, size);
            && ValidConf(b) && ValidParser(a, INITIAL) && ValidParser(b, INITIAL)
            && var s, t := Feed(a, INITIAL, request), Feed(b, INITIAL, request);
            && s.phase == t.phase == Finish && s.rc == t.rc == Ok
            && Close(ru, After(ru, s.events)).TooLarge? && Close(ru, After(ru, t.events)).Body?
  {
    var f := FormField(name, seq(ru.maxBodyLen, _ => 'x'));
    size, request := ru.maxBodyLen + 1, PrintBody(ru.delimiter, [f]);
    NoMarkInX(ru.delimiter, f.value);
    OneField(ru, ConfOf(ru, maxHeaderLen, 1), f);
    OneField(ru, ConfOf(ru, maxHeaderLen, size), f);
    ClosesWithin(ru, After(ru, Feed(ConfOf(ru, maxHeaderLen, size), INITIAL, request).events));
  }

  lemma NoMarkInX(d: string, value: string)
    requires IsDelimiter(d) && forall c | c in value :: c == 'x'
    ensures !Occurs(value, Mark(d))
  {
    DelimiterChars(d);
    forall i | 0 <= i <= |value| ensures !OccursAt(value, Mark(d), i) {
      if i + |Mark(d)| <= |value| {
        assert value[i] in value && value[i..i + |Mark(d)|][0] == value[i];
      }
    }
  }

  lemma ClosesWithin(ru: Rules, c: Chain)
    requires IsDelimiter(ru.delimiter) && !c.noContent && c.bodyLen + |ru.delimiter| + 4 <= ru.maxBodyLen
    ensures Close(ru, c).Body?
  {
  }
}
