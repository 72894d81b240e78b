/** The streaming multipart/form-data parser (upload_process_buf). */
module Multipart {
  import opened Matcher
  import opened PartHeader
  import opened Wrappers

  /** upload_state_t */
  datatype Phase = BoundarySeek | AfterBoundary | Headers | Data | Finish

  /** The calls to the part handlers, in order. */
  datatype Event = StartPart(attrs: Attrs) | FlushData(data: string) | FinishPart | AbortPart

  /** What a handler answers: NGX_OK; NGX_OK with discard_data set; an error. */
  datatype Reply = Accept | Discard | Refuse

  /** The handlers, as a function of all calls up to and including the one being answered. */
  type Handler = seq<Event> -> Reply

  datatype Rc = Ok | Malformed | Refused

  /** The delimiter, upload_max_part_header_len, upload_buffer_size and the handlers. */
  datatype Conf = Conf(delimiter: string, maxHeaderLen: nat, bufferSize: nat, handler: Handler)

  predicate ValidConf(cf: Conf) {
    IsDelimiter(cf.delimiter) && cf.bufferSize > 0
  }

  /** The upload context. `boundaryStart` and `boundaryPos` are offsets in the delimiter; `accumulator`
      and `output` are the filled parts of the two buffers. */
  datatype Parser = Parser(
    phase: Phase,
    boundaryStart: nat,
    boundaryPos: nat,
    accumulator: string,
    attrs: Attrs,
    discard: bool,
    output: string,
    events: seq<Event>,
    rc: Rc)

  /** The first delimiter of a body has no CR LF in front. */
  const INITIAL := Parser(BoundarySeek, 2, 2, [], NO_ATTRS, false, [], [], Ok)

  predicate ValidParser(cf: Conf, s: Parser)
    requires ValidConf(cf)
  {
    && (s.phase == BoundarySeek ==> s.boundaryStart == 2 && 2 <= s.boundaryPos < |cf.delimiter|)
    && (s.phase != BoundarySeek ==> Valid(cf.delimiter, Match(s.boundaryStart, s.boundaryPos)))
    && (s.phase in {AfterBoundary, Headers} ==> s.boundaryPos == s.boundaryStart)
    && |s.output| < cf.bufferSize
  }

  // ------------------------------------------------------------- sinks

  /** upload_flush_output_buffer */
  function FlushOutput(cf: Conf, s: Parser): Parser {
    if s.output == [] then s
    else
      var events := s.events + [FlushData(s.output)];
      s.(events := events, output := [], discard := s.discard || cf.handler(events) != Accept)
  }

  /** upload_putc */
  function Putc(cf: Conf, s: Parser, c: char): Parser {
    if s.discard then s
    else
      var s1 := s.(output := s.output + [c]);
      if |s1.output| == cf.bufferSize then FlushOutput(cf, s1) else s1
  }

  function PutAll(cf: Conf, s: Parser, out: string): (t: Parser)
    requires ValidConf(cf)
    ensures |s.output| < cf.bufferSize ==> |t.output| < cf.bufferSize
    ensures t == s.(output := t.output, events := t.events, discard := t.discard)
  {
    if out == [] then s else Putc(cf, PutAll(cf, s, out[..|out| - 1]), out[|out| - 1])
  }

  /** upload_start_file on the blank line that ends the headers. */
  function Start(cf: Conf, s: Parser): Parser {
    var events := s.events + [StartPart(s.attrs)];
    match cf.handler(events)
    case Refuse => s.(events := events, phase := Finish, rc := Refused)
    case reply => s.(events := events, phase := Data, output := [], discard := s.discard || reply == Discard)
  }

  /** The delimiter is complete: the part is finished, or aborted if its data was refused. */
  function EndPart(cf: Conf, s: Parser): Parser {
    var t := FlushOutput(cf, s.(phase := AfterBoundary, boundaryPos := s.boundaryStart));
    t.(events := t.events + [if t.discard then AbortPart else FinishPart], attrs := NO_ATTRS, discard := false)
  }

  // -------------------------------------------------------- one byte

  function SeekByte(cf: Conf, s: Parser, c: char): Parser
    requires ValidConf(cf) && s.boundaryPos < |cf.delimiter|
  {
    var pos := if c == cf.delimiter[s.boundaryPos] then s.boundaryPos + 1 else s.boundaryStart;
    if pos == |cf.delimiter| then s.(phase := AfterBoundary, boundaryStart := 0, boundaryPos := 0)
    else s.(boundaryPos := pos)
  }

  function HeaderByte(cf: Conf, s: Parser, c: char): Parser {
    if c == '\n' then
      if s.accumulator == [] then Start(cf, s)
      else
        match ParseHeader(s.accumulator, s.attrs)
        case None => s.(phase := Finish, rc := Malformed)
        case Some(attrs) => s.(attrs := attrs, accumulator := [])
    else if c == '\r' then s
    else if |s.accumulator| < cf.maxHeaderLen - 1 then s.(accumulator := s.accumulator + [c])
    else s.(phase := Finish, rc := Malformed)
  }

  function DataByte(cf: Conf, s: Parser, c: char): Parser
    requires ValidConf(cf) && Valid(cf.delimiter, Match(s.boundaryStart, s.boundaryPos))
  {
    var r := Advance(cf.delimiter, Match(s.boundaryStart, s.boundaryPos), c);
    var t := PutAll(cf, s, r.1).(boundaryStart := r.0.start, boundaryPos := r.0.pos);
    if r.0.pos == |cf.delimiter| then EndPart(cf, t) else t
  }

  function Step(cf: Conf, s: Parser, c: char): (t: Parser)
    requires ValidConf(cf) && ValidParser(cf, s)
    ensures ValidParser(cf, t)
  {
    match s.phase
    case BoundarySeek => SeekByte(cf, s, c)
    case AfterBoundary =>
      if c == '\n' then s.(phase := Headers, accumulator := [])
      else if c == '-' then s.(phase := Finish)
      else s
    case Headers => HeaderByte(cf, s, c)
    case Data => DataByte(cf, s, c)
    case Finish => s
  }

  function Feed(cf: Conf, s: Parser, bytes: string): (t: Parser)
    requires ValidConf(cf) && ValidParser(cf, s)
    ensures ValidParser(cf, t)
  {
    if bytes == [] then s
    else Step(cf, Feed(cf, s, bytes[..|bytes| - 1]), bytes[|bytes| - 1])
  }

  /** Cutting the stream in buffers changes nothing. */
  lemma {:induction false} FeedAppend(cf: Conf, s: Parser, a: string, b: string)
    requires ValidConf(cf) && ValidParser(cf, s)
    ensures Feed(cf, s, a + b) == Feed(cf, Feed(cf, s, a), b)
  {
    if b == [] {
      assert a + b == a;
    } else {
      assert (a + b)[..|a + b| - 1] == a + b[..|b| - 1];
      FeedAppend(cf, s, a, b[..|b| - 1]);
    }
  }

  lemma {:induction false} PutAllAppend(cf: Conf, s: Parser, a: string, b: string)
    requires ValidConf(cf)
    ensures PutAll(cf, s, a + b) == PutAll(cf, PutAll(cf, s, a), b)
  {
    if b == [] {
      assert a + b == a;
    } else {
      assert (a + b)[..|a + b| - 1] == a + b[..|b| - 1];
      PutAllAppend(cf, s, a, b[..|b| - 1]);
    }
  }

  /** The sinks do not look at the matcher. */
  lemma {:induction false} PutAllMoved(cf: Conf, s: Parser, out: string, start: nat, pos: nat)
    requires ValidConf(cf)
    ensures PutAll(cf, s.(boundaryStart := start, boundaryPos := pos), out)
         == PutAll(cf, s, out).(boundaryStart := start, boundaryPos := pos)
  {
    if out != [] {
      PutAllMoved(cf, s, out[..|out| - 1], start, pos);
    }
  }

  lemma {:induction false} FeedFinished(cf: Conf, s: Parser, bytes: string)
    requires ValidConf(cf) && ValidParser(cf, s) && s.phase == Finish
    ensures Feed(cf, s, bytes) == s
  {
    if bytes != [] {
      FeedFinished(cf, s, bytes[..|bytes| - 1]);
    }
  }
}
