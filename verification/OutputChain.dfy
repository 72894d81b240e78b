/** The output chain: what the part handlers keep of a request to pass on, with the checkpoint an
    aborted part rolls back to (start, finish, abort and flush handlers, append_field, body handler). */
module OutputChain {
  import opened Matcher
  import opened PartHeader
  import opened Multipart
  import opened PartInvariant
  import opened FieldPrinter
  import opened Wrappers

  /** upload_pass_form_field as a test on the name, upload_max_output_body_len and upload_max_file_size (0 is
      no limit), and the outcome of writing to the output file, whatever it depends on. */
  datatype Rules = Rules(
    delimiter: string,
    passes: string -> bool,
    maxBodyLen: nat,
    maxFileSize: nat,
    fileAccepts: seq<Event> -> bool)

  /** `checkpoint` counts the links up to the one the checkpoint points to, 0 for NULL; `fileOffset` is
      output_file.offset, for a file that is sent whole. */
  datatype Chain = Chain(
    links: seq<string>,
    checkpoint: nat,
    firstPart: bool,
    noContent: bool,
    bodyLen: nat,
    isFile: bool,
    fileOffset: nat)

  const EMPTY := Chain([], 0, true, true, 0, false, 0)

  function Flat(links: seq<string>): string {
    if links == [] then [] else Flat(links[..|links| - 1]) + links[|links| - 1]
  }

  function FieldDelimiter(ru: Rules, c: Chain): string
    requires IsDelimiter(ru.delimiter)
  {
    if c.firstPart then ru.delimiter[2..] else ru.delimiter
  }

  function FieldLen(ru: Rules, c: Chain, name: string, value: string): nat
    requires IsDelimiter(ru.delimiter)
  {
    |FieldDelimiter(ru, c)| + |FIELD_PART1| + |name| + |FIELD_PART2| + |value|
  }

  /** append_field; None is NGX_UPLOAD_TOOLARGE. The length is charged twice, link by link and again
      for the whole field. */
  function AppendField(ru: Rules, c: Chain, name: string, value: string): Option<Chain>
    requires IsDelimiter(ru.delimiter)
  {
    if name == [] then Some(c)
    else if ru.maxBodyLen != 0 && c.bodyLen + FieldLen(ru, c, name, value) > ru.maxBodyLen then None
    else
      Some(c.(links := c.links + [FieldDelimiter(ru, c), FIELD_PART1, name, FIELD_PART2]
                       + (if value == [] then [] else [value]),
              bodyLen := c.bodyLen + 2 * FieldLen(ru, c, name, value),
              firstPart := false, noContent := false))
  }

  /** What a handler does to the chain and what it answers, for the call that ends `events`. */
  function Handle(ru: Rules, c: Chain, events: seq<Event>): (Chain, Reply)
    requires IsDelimiter(ru.delimiter) && events != []
  {
    match events[|events| - 1]
    case StartPart(attrs) =>
      var c1 := c.(isFile := attrs.fileName != []);
      if c1.isFile then (c1.(fileOffset := 0), Accept)
      else if ru.passes(attrs.fieldName) && attrs.fieldName != [] then
        var c2 := AppendField(ru, c1, attrs.fieldName, []);
        if c2.None? then (c1, Refuse) else (c2.value, Accept)
      else (c1, Discard)
    case FlushData(data) =>
      if c.isFile then
        if ru.maxFileSize != 0 && c.fileOffset + |data| > ru.maxFileSize then (c, Refuse)
        else if ru.fileAccepts(events) then (c.(fileOffset := c.fileOffset + |data|), Accept)
        else (c, Refuse)
      else if ru.maxBodyLen != 0 && c.bodyLen + |data| > ru.maxBodyLen then (c, Refuse)
      else (c.(links := c.links + [data], bodyLen := c.bodyLen + |data|), Accept)
    case FinishPart => (c.(checkpoint := |c.links|), Accept)
    case AbortPart =>
      if c.checkpoint != 0 && c.checkpoint <= |c.links| then (c.(links := c.links[..c.checkpoint]), Accept)
      else (c.(links := [], firstPart := true), Accept)
  }

  /** The chain after all calls. */
  function After(ru: Rules, events: seq<Event>): Chain
    requires IsDelimiter(ru.delimiter)
  {
    if events == [] then EMPTY else Handle(ru, After(ru, events[..|events| - 1]), events).0
  }

  function Answer(ru: Rules, events: seq<Event>): Reply
    requires IsDelimiter(ru.delimiter)
  {
    if events == [] then Accept else Handle(ru, After(ru, events[..|events| - 1]), events).1
  }

  const DUMMY := "<ngx_upload_module_dummy>"

  /** The body passed on; 413; or 500. */
  datatype Closed = Body(text: string) | TooLarge | ServerError

  /** A request that never appended a field gets a dummy one; that this does not fit is an internal error. */
  function Close(ru: Rules, c: Chain): Closed
    requires IsDelimiter(ru.delimiter)
  {
    if ru.maxBodyLen != 0 && c.bodyLen + |ru.delimiter| + 4 > ru.maxBodyLen then TooLarge
    else
      match if c.noContent then AppendField(ru, c, DUMMY, []) else Some(c)
      case None => ServerError
      case Some(c1) => Body(Flat(c1.links) + ru.delimiter + "--\r\n")
  }

  datatype Status = Proceed | EntityTooLarge | InternalError

  function StatusOf(closed: Closed): Status {
    match closed
    case Body(_) => Proceed
    case TooLarge => EntityTooLarge
    case ServerError => InternalError
  }

  /** Which answer a request gets: 500 only without any field, if the dummy does not fit. */
  lemma CloseAnswers(ru: Rules, c: Chain)
    requires IsDelimiter(ru.delimiter)
    ensures Close(ru, c).TooLarge? <==> ru.maxBodyLen != 0 && c.bodyLen + |ru.delimiter| + 4 > ru.maxBodyLen
    ensures Close(ru, c).ServerError? <==>
              && ru.maxBodyLen != 0 && c.noContent && c.bodyLen + |ru.delimiter| + 4 <= ru.maxBodyLen
              && c.bodyLen + FieldLen(ru, c, DUMMY, []) > ru.maxBodyLen
  {
  }

  // ------------------------------------------------- the same, in place

  class OutputBody {
    const ru: Rules
    var links: seq<string>
    var checkpoint: nat
    var firstPart: bool
    var noContent: bool
    var bodyLen: nat
    var isFile: bool
    var fileOffset: nat

    function View(): Chain
      reads this
    {
      Chain(links, checkpoint, firstPart, noContent, bodyLen, isFile, fileOffset)
    }

    constructor (ru: Rules)
      ensures this.ru == ru && View() == EMPTY
    {
      this.ru := ru;
      links, checkpoint, firstPart, noContent, bodyLen, isFile, fileOffset := [], 0, true, true, 0, false, 0;
    }

    method AppendStr(s: string)
      modifies this`links, this`bodyLen
      ensures links == old(links) + [s] && bodyLen == old(bodyLen) + |s|
    {
      links := links + [s];
      bodyLen := bodyLen + |s|;
    }

    method AppendHead(boundary: string, name: string)
      modifies this`links, this`bodyLen
      ensures links == old(links) + [boundary, FIELD_PART1, name, FIELD_PART2]
      ensures bodyLen == old(bodyLen) + |boundary| + |FIELD_PART1| + |name| + |FIELD_PART2|
    {
      AppendStr(boundary);
      AppendStr(FIELD_PART1);
      AppendStr(name);
      AppendStr(FIELD_PART2);
    }

    method AppendFormField(name: string, value: string) returns (ok: bool)
      requires IsDelimiter(ru.delimiter)
      modifies this
      ensures ok == AppendField(ru, old(View()), name, value).Some?
      ensures View() == if ok then AppendField(ru, old(View()), name, value).value else old(View())
    {
      if |name| > 0 {
        var boundary := if firstPart then ru.delimiter[2..] else ru.delimiter;
        var len := |boundary| + |FIELD_PART1| + |name| + |FIELD_PART2| + |value|;
        if ru.maxBodyLen != 0 && bodyLen + len > ru.maxBodyLen {
          return false;
        }
        AppendHead(boundary, name);
        if |value| > 0 {
          AppendStr(value);
        }
        bodyLen := bodyLen + len;
        firstPart, noContent := false, false;
      }
      return true;
    }

    method StartHandler(attrs: Attrs, ghost events: seq<Event>) returns (reply: Reply)
      requires IsDelimiter(ru.delimiter) && events != [] && events[|events| - 1] == StartPart(attrs)
      modifies this
      ensures (View(), reply) == Handle(ru, old(View()), events)
    {
      isFile := attrs.fileName != [];
      if isFile {
        fileOffset := 0;
        return Accept;
      }
      if ru.passes(attrs.fieldName) && |attrs.fieldName| != 0 {
        var ok := AppendFormField(attrs.fieldName, []);
        return if ok then Accept else Refuse;
      }
      return Discard;
    }

    method FlushHandler(data: string, events: seq<Event>) returns (reply: Reply)
      requires IsDelimiter(ru.delimiter) && events != [] && events[|events| - 1] == FlushData(data)
      modifies this
      ensures (View(), reply) == Handle(ru, old(View()), events)
    {
      if isFile {
        if ru.maxFileSize != 0 && fileOffset + |data| > ru.maxFileSize {
          return Refuse;
        }
        if !ru.fileAccepts(events) {
          return Refuse;
        }
        fileOffset := fileOffset + |data|;
        return Accept;
      }
      if ru.maxBodyLen != 0 && bodyLen + |data| > ru.maxBodyLen {
        return Refuse;
      }
      bodyLen := bodyLen + |data|;
      links := links + [data];
      return Accept;
    }

    method FinishHandler(ghost events: seq<Event>)
      requires IsDelimiter(ru.delimiter) && events != [] && events[|events| - 1] == FinishPart
      modifies this
      ensures View() == Handle(ru, old(View()), events).0
    {
      checkpoint := |links|;
    }

    method AbortHandler(ghost events: seq<Event>)
      requires IsDelimiter(ru.delimiter) && events != [] && events[|events| - 1] == AbortPart
      requires checkpoint <= |links|
      modifies this
      ensures View() == Handle(ru, old(View()), events).0
    {
      if checkpoint != 0 {
        links := links[..checkpoint];
      } else {
        links, firstPart := [], true;
      }
    }

    /** The closing delimiter; the request body is then the chain. */
    method BodyHandler() returns (rc: Status)
      requires IsDelimiter(ru.delimiter)
      modifies this
      ensures rc == StatusOf(Close(ru, old(View())))
      ensures rc == EntityTooLarge <==> ru.maxBodyLen != 0 && old(bodyLen) + |ru.delimiter| + 4 > ru.maxBodyLen
      ensures rc == InternalError <==>
                && ru.maxBodyLen != 0 && old(noContent) && old(bodyLen) + |ru.delimiter| + 4 <= ru.maxBodyLen
                && old(bodyLen) + FieldLen(ru, old(View()), DUMMY, []) > ru.maxBodyLen
      ensures rc == Proceed ==> Flat(links) == Close(ru, old(View())).text
    {
      if ru.maxBodyLen != 0 && bodyLen + |ru.delimiter| + 4 > ru.maxBodyLen {
        return EntityTooLarge;
      }
      if noContent {
        var ok := AppendFormField(DUMMY, []);
        if !ok {
          return InternalError;
        }
      }
      ghost var links1 := links;
      links := links + [ru.delimiter + "--\r\n"];
      assert links[..|links| - 1] == links1;
      assert Flat(links1) + (ru.delimiter + "--\r\n") == Flat(links1) + ru.delimiter + "--\r\n";
      return Proceed;
    }
  }
}
