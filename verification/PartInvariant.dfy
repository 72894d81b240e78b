/** What holds of the parts the parser hands over, for every stream and whatever the handlers answer. */
module PartInvariant {
  import opened Matcher
  import opened PartHeader
  import opened Multipart
  import opened Wrappers

  datatype Part = Part(attrs: Attrs, data: string)

  /** The attributes of the part being received. */
  function CurrentAttrs(events: seq<Event>): Attrs {
    if events == [] then NO_ATTRS
    else
      match events[|events| - 1]
      case StartPart(attrs) => attrs
      case _ => CurrentAttrs(events[..|events| - 1])
  }

  /** The data of the part being received. */
  function CurrentData(events: seq<Event>): string {
    if events == [] then []
    else
      match events[|events| - 1]
      case StartPart(_) => []
      case FlushData(data) => CurrentData(events[..|events| - 1]) + data
      case _ => CurrentData(events[..|events| - 1])
  }

  /** The parts that were finished, not aborted. */
  function Finished(events: seq<Event>): seq<Part> {
    if events == [] then []
    else
      var front := events[..|events| - 1];
      match events[|events| - 1]
      case FinishPart => Finished(front) + [Part(CurrentAttrs(front), CurrentData(front))]
      case _ => Finished(front)
  }

  lemma EventAppended(events: seq<Event>, e: Event)
    ensures CurrentAttrs(events + [e]) == if e.StartPart? then e.attrs else CurrentAttrs(events)
    ensures CurrentData(events + [e])
         == if e.StartPart? then [] else if e.FlushData? then CurrentData(events) + e.data else CurrentData(events)
    ensures Finished(events + [e])
         == if e.FinishPart? then Finished(events) + [Part(CurrentAttrs(events), CurrentData(events))]
             else Finished(events)
  {
    assert (events + [e])[..|events|] == events;
  }

  /** Everything of the current part that was given to the sinks. */
  function Emitted(s: Parser): string {
    CurrentData(s.events) + s.output
  }

  lemma FlushEmits(cf: Conf, s: Parser)
    ensures var t := FlushOutput(cf, s);
            && Emitted(t) == Emitted(s) && t.output == []
            && CurrentAttrs(t.events) == CurrentAttrs(s.events) && Finished(t.events) == Finished(s.events)
            && (!t.discard ==> !s.discard)
  {
    EventAppended(s.events, FlushData(s.output));
    assert CurrentData(s.events) + [] == CurrentData(s.events);
    assert CurrentData(s.events) + s.output + [] == CurrentData(s.events) + s.output;
  }

  lemma PutcEmits(cf: Conf, s: Parser, c: char)
    ensures var t := Putc(cf, s, c);
            && CurrentAttrs(t.events) == CurrentAttrs(s.events) && Finished(t.events) == Finished(s.events)
            && (!t.discard ==> !s.discard)
            && (!s.discard ==> Emitted(t) == Emitted(s) + [c])
  {
    if !s.discard {
      var s1 := s.(output := s.output + [c]);
      assert Emitted(s1) == Emitted(s) + [c];
      FlushEmits(cf, s1);
    }
  }

  /** As long as no flush is refused, the sinks take every byte in order. */
  lemma {:induction false} PutAllEmits(cf: Conf, s: Parser, out: string)
    requires ValidConf(cf)
    ensures var t := PutAll(cf, s, out);
            && CurrentAttrs(t.events) == CurrentAttrs(s.events) && Finished(t.events) == Finished(s.events)
            && (!t.discard ==> !s.discard && Emitted(t) == Emitted(s) + out)
  {
    if out == [] {
      assert Emitted(s) + out == Emitted(s);
    } else {
      var front, c := out[..|out| - 1], out[|out| - 1];
      PutAllEmits(cf, s, front);
      PutcEmits(cf, PutAll(cf, s, front), c);
      assert Emitted(s) + front + [c] == Emitted(s) + out;
    }
  }

  // ------------------------------------------------------ what a name can be

  predicate Plain(s: string) {
    '\r' !in s && '\n' !in s
  }

  /** No character that would end the attribute or the line it is printed on. */
  predicate CleanName(s: string) {
    Plain(s) && '"' !in s && '\0' !in s
  }

  lemma {:induction false} SkipSpacesSuffix(s: string)
    ensures exists k :: 0 <= k <= |s| && SkipSpaces(s) == s[k..]
  {
    if s != [] && s[0] == ' ' {
      SkipSpacesSuffix(s[1..]);
      var k :| 0 <= k <= |s[1..]| && SkipSpaces(s[1..]) == s[1..][k..];
      assert s[1..][k..] == s[k + 1..];
    } else {
      assert SkipSpaces(s) == s[0..];
    }
  }

  lemma PlainLine(line: string, n: nat)
    requires Plain(line) && n <= |line|
    ensures var t := CString(SkipSpaces(line[n..])); Plain(t) && '\0' !in t
  {
    SkipSpacesSuffix(line[n..]);
    var k :| 0 <= k <= |line[n..]| && SkipSpaces(line[n..]) == line[n..][k..];
    assert forall c | c in line[n..][k..] :: c in line;
  }

  lemma QuotedClean(t: string, i: nat)
    requires Plain(t) && '\0' !in t && i <= |t| && Quoted(t, i).Some?
    ensures CleanName(Quoted(t, i).value)
  {
    var n := Until(t[i..], '"');
    assert t[i..][..n] == t[i..i + n];
    assert forall c | c in t[i..i + n] :: c in t;
  }

  /** Whatever a header line holds, the field name taken from it is clean. */
  lemma ParsedNameClean(line: string, attrs: Attrs)
    requires Plain(line) && CleanName(attrs.fieldName) && ParseHeader(line, attrs).Some?
    ensures CleanName(ParseHeader(line, attrs).value.fieldName)
  {
    if StartsWith(line, CONTENT_DISPOSITION) {
      var t := CString(SkipSpaces(line[|CONTENT_DISPOSITION|..]));
      PlainLine(line, |CONTENT_DISPOSITION|);
      var ni := Find(t, FIELDNAME);
      if ni.Some? && Quoted(t, ni.value + |FIELDNAME|).Some? {
        QuotedClean(t, ni.value + |FIELDNAME|);
      }
    }
  }

  // ---------------------------------------------------------- invariant

  predicate CleanPart(d: string, p: Part)
    requires IsDelimiter(d)
  {
    CleanName(p.attrs.fieldName) && !Occurs(p.data, Mark(d))
  }

  /** In the data state with nothing refused so far, some consumed bytes explain what was emitted. */
  ghost predicate Receiving(cf: Conf, s: Parser)
    requires ValidConf(cf)
  {
    && CurrentAttrs(s.events) == s.attrs
    && (!s.discard ==>
          exists consumed :: Tracking(cf.delimiter, consumed, Match(s.boundaryStart, s.boundaryPos), Emitted(s)))
  }

  ghost predicate Inv(cf: Conf, s: Parser)
    requires ValidConf(cf)
  {
    && ValidParser(cf, s) && s.boundaryStart <= 2
    && CleanName(s.attrs.fieldName) && Plain(s.accumulator)
    && (s.phase != Data ==> s.output == [])
    && (forall p | p in Finished(s.events) :: CleanPart(cf.delimiter, p))
    && (s.phase == Data ==> Receiving(cf, s))
  }

  lemma PrefixFree(s: string, k: nat, pat: string)
    requires k <= |s| && forall i | 0 <= i <= |s| :: !OccursAt(s, pat, i)
    ensures !Occurs(s[..k], pat)
  {
    forall i | 0 <= i <= k ensures !OccursAt(s[..k], pat, i) {
      if i + |pat| <= k {
        assert s[..k][i..i + |pat|] == s[i..i + |pat|];
        assert !OccursAt(s, pat, i);
      }
    }
  }

  lemma HeaderByteInv(cf: Conf, s: Parser, c: char)
    requires ValidConf(cf) && Inv(cf, s) && s.phase == Headers
    ensures Inv(cf, Step(cf, s, c))
  {
    if c == '\n' {
      if s.accumulator == [] {
        EventAppended(s.events, StartPart(s.attrs));
        var t := Start(cf, s);
        if t.phase == Data {
          assert Emitted(t) == [];
          assert cf.delimiter[s.boundaryStart..s.boundaryStart] == [];
          assert Tracking(cf.delimiter, [], Match(s.boundaryStart, s.boundaryStart), Emitted(t));
        }
      } else if ParseHeader(s.accumulator, s.attrs).Some? {
        ParsedNameClean(s.accumulator, s.attrs);
      }
    }
  }

  lemma DataByteInv(cf: Conf, s: Parser, c: char)
    requires ValidConf(cf) && Inv(cf, s) && s.phase == Data
    ensures Inv(cf, Step(cf, s, c))
  {
    var d, m := cf.delimiter, Match(s.boundaryStart, s.boundaryPos);
    var r := Advance(d, m, c);
    var t := PutAll(cf, s, r.1).(boundaryStart := r.0.start, boundaryPos := r.0.pos);
    PutAllEmits(cf, s, r.1);
    if !t.discard {
      var consumed :| Tracking(d, consumed, m, Emitted(s));
      AdvanceTracks(d, consumed, m, Emitted(s), c);
      if r.0.pos < |d| {
        assert Tracking(d, consumed + [c], r.0, Emitted(t));
      } else {
        assert consumed + [c] == Emitted(t) + d[r.0.start..];
        assert Emitted(t) == consumed[..|Emitted(t)|];
        PrefixFree(consumed, |Emitted(t)|, Mark(d));
      }
    }
    if r.0.pos == |d| {
      EndPartInv(cf, t);
    }
  }

  lemma EndPartInv(cf: Conf, t: Parser)
    requires ValidConf(cf) && t.boundaryStart <= 1 && CurrentAttrs(t.events) == t.attrs && CleanName(t.attrs.fieldName)
    requires !t.discard ==> !Occurs(Emitted(t), Mark(cf.delimiter))
    requires forall p | p in Finished(t.events) :: CleanPart(cf.delimiter, p)
    requires Plain(t.accumulator)
    ensures Inv(cf, EndPart(cf, t))
  {
    var u := t.(phase := AfterBoundary, boundaryPos := t.boundaryStart);
    FlushEmits(cf, u);
    var v := FlushOutput(cf, u);
    assert CurrentData(v.events) + [] == CurrentData(v.events);
    EventAppended(v.events, if v.discard then AbortPart else FinishPart);
  }

  lemma StepInv(cf: Conf, s: Parser, c: char)
    requires ValidConf(cf) && Inv(cf, s)
    ensures Inv(cf, Step(cf, s, c))
  {
    match s.phase
    case Headers => HeaderByteInv(cf, s, c);
    case Data => DataByteInv(cf, s, c);
    case _ =>
  }

  /** Every finished part, of any stream and for any answers of the handlers, has a field name that can
      be printed on a header line, and data in which the delimiter does not occur. */
  lemma {:induction false} PartsAreClean(cf: Conf, bytes: string)
    requires ValidConf(cf)
    ensures ValidParser(cf, INITIAL) && Inv(cf, Feed(cf, INITIAL, bytes))
    ensures forall p | p in Finished(Feed(cf, INITIAL, bytes).events) :: CleanPart(cf.delimiter, p)
  {
    if bytes != [] {
      PartsAreClean(cf, bytes[..|bytes| - 1]);
      StepInv(cf, Feed(cf, INITIAL, bytes[..|bytes| - 1]), bytes[|bytes| - 1]);
    }
  }
}
