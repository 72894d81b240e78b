/** upload_max_file_size: no file that is sent whole is finished with more data. */
module FileSizes {
  import opened Matcher
  import opened PartHeader
  import opened Multipart
  import opened PartInvariant
  import opened OutputChain
  import opened Forwarding
  import opened SizeIndependence

  predicate SmallFiles(ru: Rules, parts: seq<Part>) {
    forall p | p in parts && p.attrs.fileName != [] :: ru.maxFileSize == 0 || |p.data| <= ru.maxFileSize
  }

  /** What was written of the file being received is what was given to the sinks of it. */
  predicate Counted(ru: Rules, s: Parser)
    requires IsDelimiter(ru.delimiter)
  {
    s.phase == Data ==>
      Paid(ru, s) && (!s.discard && After(ru, s.events).isFile ==> Used(ru, s) == |Emitted(s)|)
  }

  lemma StartCounted(ru: Rules, cf: Conf, s: Parser)
    requires Own(ru, cf) && s.phase == Headers
    ensures Counted(ru, Start(cf, s)) && Finished(Start(cf, s).events) == Finished(s.events)
  {
    var e := StartPart(s.attrs);
    AfterEvent(ru, s.events, e);
    AnswerIs(ru, s.events, e);
    EventAppended(s.events, e);
  }

  lemma EndFits(ru: Rules, cf: Conf, s: Parser)
    requires Own(ru, cf) && FileSinkAccepts(ru) && s.phase == Data && Counted(ru, s)
             && SmallFiles(ru, Finished(s.events))
    requires CurrentAttrs(s.events) == s.attrs && After(ru, s.events).isFile == (s.attrs.fileName != [])
    ensures SmallFiles(ru, Finished(EndPart(cf, s).events))
  {
    var s1 := FlushOutput(cf, s);
    PartEnds(ru, cf, s, s1);
    EventAppended(s1.events, if Doomed(ru, s) then AbortPart else FinishPart);
  }

  lemma DataFits(ru: Rules, cf: Conf, s: Parser, c: char)
    requires Own(ru, cf) && FileSinkAccepts(ru) && ValidParser(cf, s) && s.phase == Data && Counted(ru, s)
    requires CurrentAttrs(s.events) == s.attrs && After(ru, s.events).isFile == (s.attrs.fileName != [])
    requires SmallFiles(ru, Finished(s.events))
    ensures Counted(ru, DataByte(cf, s, c)) && SmallFiles(ru, Finished(DataByte(cf, s, c).events))
  {
    var r := Advance(cf.delimiter, Match(s.boundaryStart, s.boundaryPos), c);
    var t := PutAll(cf, s, r.1);
    PutDooms(ru, cf, s, r.1, t);
    PutAllEmits(cf, s, r.1);
    if r.0.pos == |cf.delimiter| {
      EndFits(ru, cf, t.(boundaryStart := r.0.start, boundaryPos := r.0.pos));
    }
  }

  /** On every stream and with every buffer size: a finished file is within the limit. */
  lemma {:induction false} FilesFit(ru: Rules, cf: Conf, bytes: string)
    requires Own(ru, cf) && FileSinkAccepts(ru)
    ensures Counted(ru, Feed(cf, INITIAL, bytes)) && SmallFiles(ru, Finished(Feed(cf, INITIAL, bytes).events))
  {
    if bytes != [] {
      var front, c := bytes[..|bytes| - 1], bytes[|bytes| - 1];
      FilesFit(ru, cf, front);
      RunLink(ru, cf, front);
      PartsAreClean(cf, front);
      var s := Feed(cf, INITIAL, front);
      if s.phase == Data {
        DataFits(ru, cf, s, c);
      } else if s.phase == Headers && c == '\n' && s.accumulator == [] {
        StartCounted(ru, cf, s);
      } else if s.phase == Headers {
        HeaderByteKeeps(cf, s, c);
      }
    }
  }
}
