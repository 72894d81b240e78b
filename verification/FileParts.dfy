/** File parts: which attributes a part has whose header names a file, and the part behind a delimiter. */
module FileParts {
  import opened Matcher
  import opened PartHeader
  import opened Multipart
  import opened PartInvariant
  import opened FieldPrinter
  import opened RoundTrip
  import opened Wrappers

  const FILE_PART := "\"; filename=\""

  /** What stands between the two quotes of FILE_PART. */
  const BETWEEN := "; filename="

  /** The attribute text of a file part with field name `n` and the name `g` the client gave. */
  function FileDisposition(n: string, g: string): string {
    "form-data; name=\"" + n + FILE_PART + g + "\""
  }

  function FileLine(n: string, g: string): string {
    LINE_START + n + FILE_PART + g + "\""
  }

  predicate IsSeparator(c: char) {
    c == '/' || c == '\\'
  }

  /** The directories of a name, up to and with their last separator. */
  predicate IsPath(p: string) {
    p == [] || IsSeparator(p[|p| - 1])
  }

  predicate IsBase(f: string) {
    forall i | 0 <= i < |f| :: !IsSeparator(f[i])
  }

  /** What is kept of a name: its last part, unless the only separator comes first. */
  lemma {:induction false} PathStripped(p: string, f: string, i: nat)
    requires IsPath(p) && IsBase(f) && |p| <= i <= |p + f|
    ensures StripPath(p + f, i) == if |p| == 1 then p + f else f
    decreases i
  {
    if i >= 2 && i > |p| {
      assert (p + f)[i - 1] == f[i - 1 - |p|];
      PathStripped(p, f, i - 1);
    }
  }

  // ---------------------------------------------------- the disposition

  lemma FileQuotes(n: string, g: string)
    requires '"' !in n && '"' !in g
    ensures var t := FileDisposition(n, g);
            && |t| == 31 + |n| + |g|
            && forall i | 0 <= i < |t| :: t[i] == '"' <==> i in {16, 17 + |n|, 29 + |n|, |t| - 1}
  {
    var t := FileDisposition(n, g);
    forall i | 0 <= i < |t| ensures t[i] == '"' <==> i in {16, 17 + |n|, 29 + |n|, |t| - 1} {
      if i < 17 {
        assert t[i] == "form-data; name=\""[i];
      } else if i < 17 + |n| {
        assert t[i] == n[i - 17];
      } else if i < 30 + |n| {
        assert t[i] == FILE_PART[i - 17 - |n|];
      } else if i < |t| - 1 {
        assert t[i] == g[i - 30 - |n|];
      }
    }
  }

  /** The name attribute is found first. */
  lemma NameFound(n: string, g: string)
    requires '"' !in n && '"' !in g
    ensures Find(FileDisposition(n, g), FIELDNAME) == Some(11)
  {
    var t := FileDisposition(n, g);
    FileQuotes(n, g);
    assert t[..17] == "form-data; name=\"";
    assert t[11..17] == t[..17][11..17] == FIELDNAME;
    assert At(t, FIELDNAME, 11);
    var i := Find(t, FIELDNAME).value;
    assert t[i..i + 6][5] == t[i + 5] == '"';
  }

  lemma FileNameFound(n: string, g: string)
    requires '"' !in n && '"' !in g
    ensures Find(FileDisposition(n, g), FILENAME) == Some(if EndsWith(n, "filename=") then 8 + |n| else 20 + |n|)
  {
    var t := FileDisposition(n, g);
    FileQuotes(n, g);
    assert t[20 + |n|..30 + |n|] == FILE_PART[3..] == FILENAME;
    assert At(t, FILENAME, 20 + |n|);
    if EndsWith(n, "filename=") {
      assert t[8 + |n|..18 + |n|] == n[|n| - 9..] + "\"" == FILENAME;
      assert At(t, FILENAME, 8 + |n|);
    }
    forall i: nat | At(t, FILENAME, i) && i < 20 + |n| ensures i == 8 + |n| && EndsWith(n, "filename=") {
      FilenamePlace(n, g, i);
    }
  }

  lemma FilenamePlace(n: string, g: string, i: nat)
    requires '"' !in n && '"' !in g && i < 20 + |n| && At(FileDisposition(n, g), FILENAME, i)
    ensures i == 8 + |n| && EndsWith(n, "filename=")
  {
    var t := FileDisposition(n, g);
    FileQuotes(n, g);
    assert t[i..i + 10][9] == t[i + 9] == '"';
    assert t[i..i + 10][0] == t[i] == 'f' && t[7] == 't';
    assert forall j | 0 <= j < 9 :: t[i..i + 10][j] == FILENAME[j] != '"';
    assert forall j | i <= j < i + 9 :: t[j] == t[i..i + 10][j - i] != '"';
    assert t[16] == '"' && i == 8 + |n|;
    assert t[i..i + 10][..9] == t[i..i + 9] == n[|n| - 9..];
    assert FILENAME[..9] == "filename=";
  }

  lemma QuotedIs(s: string, i: nat, text: string)
    requires i + |text| < |s| && s[i..i + |text|] == text && s[i + |text|] == '"' && '"' !in text
    ensures Quoted(s, i) == Some(text)
  {
    assert s[i..][..|text|] == text;
    UntilIs(s[i..], |text|, '"');
  }

  /** A file name and a name in front of it, each found and closed. */
  lemma BothNames(s: string, attrs: Attrs, at: nat, file: string, name: string, kept: string)
    requires StartsWith(s, FORM_DATA) && Find(s, FIELDNAME) == Some(11) && Find(s, FILENAME) == Some(at) && at > 7
    requires at + 10 <= |s| && Quoted(s, at + 10) == Some(file) && Quoted(s, 17) == Some(name)
    requires kept == StripPath(file, |file|) && |kept| <= |file|
    ensures ParseDisposition(s, attrs) == Some(attrs.(fieldName := name, fileName := kept))
  {
    assert |FILENAME| == 10 && |FIELDNAME| == 6;
  }

  lemma FieldNameQuoted(n: string, g: string, t: string)
    requires CleanName(n) && CleanName(g) && t == FileDisposition(n, g)
    ensures StartsWith(t, FORM_DATA) && |t| == 31 + |n| + |g| && Quoted(t, 17) == Some(n)
  {
    FileQuotes(n, g);
    assert t[..9] == FORM_DATA;
    assert forall i | 0 <= i < 9 :: t[i] == t[..9][i];
    assert t[17..17 + |n|] == n;
    QuotedIs(t, 17, n);
  }

  /** The file name starts behind the given place, and is either what the client gave or what stands between the
      two names. */
  lemma FileNameQuoted(n: string, g: string, t: string)
    requires CleanName(n) && CleanName(g) && t == FileDisposition(n, g)
    ensures |t| == 31 + |n| + |g|
    ensures Quoted(t, 30 + |n|) == Some(g) && Quoted(t, 18 + |n|) == Some(BETWEEN)
  {
    FileQuotes(n, g);
    assert t[30 + |n|..30 + |n| + |g|] == g;
    QuotedIs(t, 30 + |n|, g);
    assert t[18 + |n|..29 + |n|] == FILE_PART[1..12] == BETWEEN;
    QuotedIs(t, 18 + |n|, BETWEEN);
  }

  lemma CleanJoin(p: string, f: string)
    requires CleanName(p) && CleanName(f)
    ensures CleanName(p + f)
  {
  }

  /** What the attribute text yields. A field name that ends in `filename=` is taken for the beginning of the
      file name, which is then the text in between. */
  lemma FileAttributes(n: string, p: string, f: string, attrs: Attrs)
    requires CleanName(n) && CleanName(p) && CleanName(f) && IsPath(p) && IsBase(f)
    ensures ParseDisposition(FileDisposition(n, p + f), attrs)
         == Some(attrs.(fieldName := n, fileName := GivenName(n, p, f)))
  {
    var g := p + f;
    var t := FileDisposition(n, g);
    CleanJoin(p, f);
    FieldNameQuoted(n, g, t);
    FileNameQuoted(n, g, t);
    NameFound(n, g);
    FileNameFound(n, g);
    if EndsWith(n, "filename=") {
      OddNames(t, n, attrs);
    } else {
      UsualNames(t, n, p, f, attrs);
    }
  }

  lemma UsualNames(t: string, n: string, p: string, f: string, attrs: Attrs)
    requires IsPath(p) && IsBase(f) && |t| == 31 + |n| + |p + f|
    requires StartsWith(t, FORM_DATA) && Find(t, FIELDNAME) == Some(11) && Quoted(t, 17) == Some(n)
    requires Find(t, FILENAME) == Some(20 + |n|) && Quoted(t, 30 + |n|) == Some(p + f)
    ensures ParseDisposition(t, attrs)
         == Some(attrs.(fieldName := n, fileName := if |p| == 1 then p + f else f))
  {
    PathStripped(p, f, |p + f|);
    BothNames(t, attrs, 20 + |n|, p + f, n, if |p| == 1 then p + f else f);
  }

  lemma OddNames(t: string, n: string, attrs: Attrs)
    requires |t| >= 31 + |n|
    requires StartsWith(t, FORM_DATA) && Find(t, FIELDNAME) == Some(11) && Quoted(t, 17) == Some(n)
    requires Find(t, FILENAME) == Some(8 + |n|) && Quoted(t, 18 + |n|) == Some(BETWEEN)
    ensures ParseDisposition(t, attrs) == Some(attrs.(fieldName := n, fileName := BETWEEN))
  {
    BetweenKept();
    BothNames(t, attrs, 8 + |n|, BETWEEN, n, BETWEEN);
  }

  lemma BetweenKept()
    ensures |BETWEEN| == 11 && StripPath(BETWEEN, |BETWEEN|) == BETWEEN
  {
    PathStripped([], BETWEEN, |BETWEEN|);
    assert [] + BETWEEN == BETWEEN;
  }

  /** The file name of a part. */
  function GivenName(n: string, p: string, f: string): string {
    if EndsWith(n, "filename=") then BETWEEN
    else if |p| == 1 then p + f
    else f
  }

  lemma FileLineParsed(n: string, p: string, f: string, attrs: Attrs)
    requires CleanName(n) && CleanName(p) && CleanName(f) && IsPath(p) && IsBase(f)
    ensures ParseHeader(FileLine(n, p + f), attrs) == Some(attrs.(fieldName := n, fileName := GivenName(n, p, f)))
  {
    var line, t := FileLine(n, p + f), FileDisposition(n, p + f);
    assert line == CONTENT_DISPOSITION + " " + t;
    FileTextHasNoNul(n, p, f);
    FileAttributes(n, p, f, attrs);
    assert t[0] == 'f';
    DispositionLine(line, t, attrs);
  }

  lemma DispositionLine(line: string, t: string, attrs: Attrs)
    requires line == CONTENT_DISPOSITION + " " + t && t != [] && t[0] != ' ' && CString(t) == t
    ensures ParseHeader(line, attrs) == ParseDisposition(t, attrs)
  {
    assert |CONTENT_DISPOSITION| == 20 && line[..20] == CONTENT_DISPOSITION;
    assert forall i | 0 <= i < 20 :: line[i] == line[..20][i];
    assert Spaces(1) == " " && line[20..] == Spaces(1) + t;
    SpacesSkipped(1, t);
  }

  lemma FileTextHasNoNul(n: string, p: string, f: string)
    requires '\0' !in n && '\0' !in p && '\0' !in f
    ensures CString(FileDisposition(n, p + f)) == FileDisposition(n, p + f)
  {
    var t := FileDisposition(n, p + f);
    assert '\0' !in "form-data; name=\"" && '\0' !in FILE_PART && '\0' !in "\"";
    assert t[..|t|] == t;
    UntilIs(t, |t|, '\0');
  }

  // --------------------------------------------------------- attachments

  const ATTACHED := "attachment; filename=\""

  function Attachment(g: string): string {
    ATTACHED + g + "\""
  }

  lemma AttachedQuotes(g: string)
    requires '"' !in g
    ensures var t := Attachment(g);
            |t| == 23 + |g| && forall i | 0 <= i < |t| :: t[i] == '"' <==> i in {21, |t| - 1}
  {
    var t := Attachment(g);
    forall i | 0 <= i < |t| ensures t[i] == '"' <==> i in {21, |t| - 1} {
      if i < 22 {
        assert t[i] == ATTACHED[i];
      } else if i < |t| - 1 {
        assert t[i] == g[i - 22];
      }
    }
  }

  /** Both attributes are found in the one that is there: `name="` is the tail of `filename="`. */
  lemma AttachedFile(g: string)
    requires '"' !in g
    ensures Find(Attachment(g), FILENAME) == Some(12)
  {
    var t := Attachment(g);
    AttachedQuotes(g);
    assert t[..22] == ATTACHED;
    assert t[12..22] == t[..22][12..] == FILENAME && At(t, FILENAME, 12);
    var i := Find(t, FILENAME).value;
    assert t[i..i + 10][9] == t[i + 9] == '"';
  }

  lemma AttachedField(g: string)
    requires '"' !in g
    ensures Find(Attachment(g), FIELDNAME) == Some(16)
  {
    var t := Attachment(g);
    AttachedQuotes(g);
    assert t[..22] == ATTACHED;
    assert t[16..22] == t[..22][16..] == FIELDNAME && At(t, FIELDNAME, 16);
    var i := Find(t, FIELDNAME).value;
    assert t[i..i + 6][5] == t[i + 5] == '"';
  }

  lemma AttachedName(g: string)
    requires '"' !in g
    ensures |Attachment(g)| == 23 + |g| && Quoted(Attachment(g), 22) == Some(g)
  {
    var t := Attachment(g);
    AttachedQuotes(g);
    assert t[22..22 + |g|] == g;
    QuotedIs(t, 22, g);
  }

  /** An attachment has no field name, unless directories were cut off its file name: then the name with its
      directories is taken for the name of the field. */
  lemma AttachmentParsed(p: string, f: string, attrs: Attrs)
    requires CleanName(p) && CleanName(f) && IsPath(p) && IsBase(f)
    ensures ParseDisposition(Attachment(p + f), attrs)
         == if |p| < 2 then Some(attrs.(fileName := p + f))
            else Some(attrs.(fieldName := p + f, fileName := f))
  {
    var t := Attachment(p + f);
    CleanJoin(p, f);
    AttachedFile(p + f);
    AttachedField(p + f);
    AttachedName(p + f);
    assert t[..10] == ATTACHMENT;
    assert forall i | 0 <= i < 10 :: t[i] == t[..10][i];
    PathStripped(p, f, |p + f|);
    assert p == [] ==> p + f == f;
    OneName(t, attrs, p + f, if |p| < 2 then p + f else f);
  }

  lemma OneName(t: string, attrs: Attrs, file: string, kept: string)
    requires StartsWith(t, ATTACHMENT) && |t| == 23 + |file| && Quoted(t, 22) == Some(file)
    requires Find(t, FILENAME) == Some(12) && Find(t, FIELDNAME) == Some(16)
    requires kept == StripPath(file, |file|) && |kept| <= |file|
    ensures ParseDisposition(t, attrs)
         == if |kept| == |file| then Some(attrs.(fileName := kept))
            else Some(attrs.(fileName := kept, fieldName := file))
  {
    assert |FILENAME| == 10 && |FIELDNAME| == 6;
  }

  // ------------------------------------------------------ the content type

  function Spaces(k: nat): string {
    if k == 0 then [] else [' '] + Spaces(k - 1)
  }

  lemma {:induction false} SpacesSkipped(k: nat, s: string)
    requires s == [] || s[0] != ' '
    ensures SkipSpaces(Spaces(k) + s) == s
  {
    if k == 0 {
      assert Spaces(0) + s == s;
    } else {
      SpacesSkipped(k - 1, s);
      assert Spaces(k) + s == [' '] + (Spaces(k - 1) + s);
      assert (Spaces(k) + s)[1..] == Spaces(k - 1) + s;
    }
  }

  lemma TypeLineStart(line: string, rest: string)
    requires line == CONTENT_TYPE + rest
    ensures StartsWith(line, CONTENT_TYPE) && !StartsWith(line, CONTENT_DISPOSITION)
    ensures |CONTENT_TYPE| <= |line| && line[|CONTENT_TYPE|..] == rest
  {
    assert |CONTENT_TYPE| == 13 && line[..13] == CONTENT_TYPE;
    assert forall i | 0 <= i < 13 :: line[i] == line[..13][i];
    assert Lower(line[8]) != Lower(CONTENT_DISPOSITION[8]);
  }

  /** The type is what follows the spaces, and it must not be empty. The other attributes stay. */
  lemma TypeLineParsed(k: nat, contentType: string, attrs: Attrs)
    requires '\0' !in contentType && (contentType == [] || contentType[0] != ' ')
    ensures ParseHeader(CONTENT_TYPE + Spaces(k) + contentType, attrs)
         == if contentType == [] then None else Some(attrs.(contentType := contentType))
  {
    var line := CONTENT_TYPE + Spaces(k) + contentType;
    assert line == CONTENT_TYPE + (Spaces(k) + contentType);
    TypeLineStart(line, Spaces(k) + contentType);
    SpacesSkipped(k, contentType);
    PaddedIs(contentType);
    TypeOf(line, Spaces(k) + contentType, contentType, attrs);
  }

  lemma TypeOf(line: string, rest: string, contentType: string, attrs: Attrs)
    requires StartsWith(line, CONTENT_TYPE) && !StartsWith(line, CONTENT_DISPOSITION)
    requires line[|CONTENT_TYPE|..] == rest && SkipSpaces(rest) == contentType == ZeroPadded(contentType)
    ensures ParseHeader(line, attrs)
         == if contentType == [] then None else Some(attrs.(contentType := contentType))
  {
  }

  lemma PaddedIs(s: string)
    requires '\0' !in s
    ensures ZeroPadded(s) == s
  {
    assert s[..|s|] == s;
    UntilIs(s, |s|, '\0');
  }

  /** Behind a NUL a value is all NULs. */
  lemma PaddedAt(s: string, i: nat)
    requires i < |s|
    ensures |ZeroPadded(s)| == |s| && ZeroPadded(s)[i] == if '\0' in s[..i + 1] then '\0' else s[i]
  {
    var n := Until(s, '\0');
    if i >= n {
      assert s[..i + 1][n] == '\0';
    } else {
      assert forall j | 0 <= j <= i :: s[..i + 1][j] == s[..n][j] && s[..n][j] in s[..n];
    }
  }

  // ------------------------------------------------------------------ case

  predicate SameLetter(a: char, b: char) {
    || a == b
    || ('A' <= a <= 'Z' && b as int == a as int + 'a' as int - 'A' as int)
    || ('A' <= b <= 'Z' && a as int == b as int + 'a' as int - 'A' as int)
  }

  /** Header names and disposition types are compared without regard to the case of letters. */
  lemma AnyCase(s: string, prefix: string)
    ensures StartsWith(s, prefix)
       <==> |prefix| <= |s| && forall i | 0 <= i < |prefix| :: SameLetter(s[i], prefix[i])
  {
    forall a: char, b: char ensures Lower(a) == Lower(b) <==> SameLetter(a, b) {
    }
  }

  // ------------------------------------------------------------ any headers

  predicate IsLine(line: string) {
    line != [] && Plain(line)
  }

  /** Header lines one after the other, each with its line break. */
  function Lines(lines: seq<string>): string {
    if lines == [] then [] else Lines(lines[..|lines| - 1]) + (lines[|lines| - 1] + CRLF)
  }

  /** What header lines make of the attributes; None if one of them is malformed or too long for the buffer. */
  function ParseLines(bufferLen: nat, lines: seq<string>, attrs: Attrs): Option<Attrs> {
    if lines == [] then Some(attrs)
    else
      var line := lines[|lines| - 1];
      match ParseLines(bufferLen, lines[..|lines| - 1], attrs)
      case None => None
      case Some(a) => if |line| < bufferLen then ParseHeader(line, a) else None
  }

  lemma ReadLine(cf: Conf, s: Parser, line: string)
    requires ValidConf(cf) && ValidParser(cf, s) && s.phase == Headers && s.accumulator == [] && IsLine(line)
    ensures var t := Feed(cf, s, line + CRLF);
            match if |line| < cf.maxHeaderLen then ParseHeader(line, s.attrs) else None
            case None => t.phase == Finish && t.rc == Malformed
            case Some(attrs) => t == s.(attrs := attrs)
  {
    FeedAppend(cf, s, line, CRLF);
    if |line| < cf.maxHeaderLen {
      FeedLine(cf, s, line);
      assert [] + line == line;
      FeedTwo(cf, s.(accumulator := line), '\r', '\n');
    } else {
      FeedLongLine(cf, s, line);
      FeedFinished(cf, Feed(cf, s, line), CRLF);
    }
  }

  /** Any header lines: they are parsed in order. */
  lemma {:induction false} ReadLines(cf: Conf, s: Parser, lines: seq<string>)
    requires ValidConf(cf) && ValidParser(cf, s) && s.phase == Headers && s.accumulator == []
    requires forall line | line in lines :: IsLine(line)
    ensures var t := Feed(cf, s, Lines(lines));
            match ParseLines(cf.maxHeaderLen, lines, s.attrs)
            case None => t.phase == Finish && t.rc == Malformed
            case Some(attrs) => t == s.(attrs := attrs)
  {
    if lines != [] {
      var front, line := lines[..|lines| - 1], lines[|lines| - 1];
      assert lines == front + [line];
      ReadLines(cf, s, front);
      FeedAppend(cf, s, Lines(front), line + CRLF);
      var t := Feed(cf, s, Lines(front));
      if t.phase == Finish {
        FeedFinished(cf, t, line + CRLF);
      } else {
        ReadLine(cf, t, line);
      }
    }
  }

  /** A whole part behind a delimiter: its header lines, its data and the next delimiter. */
  function PartText(d: string, lines: seq<string>, data: string): string {
    CRLF + (Lines(lines) + (CRLF + (data + d)))
  }

  /** A part is finished with the attributes that its header lines give it and with all of its data. */
  lemma ReadPart(cf: Conf, s: Parser, parts: seq<Part>, lines: seq<string>, data: string)
    requires ValidConf(cf) && ValidParser(cf, s) && AcceptsAll(cf) && Between(s, parts)
    requires (forall line | line in lines :: IsLine(line)) && !Occurs(data, Mark(cf.delimiter))
    ensures var t := Feed(cf, s, PartText(cf.delimiter, lines, data));
            match ParseLines(cf.maxHeaderLen, lines, NO_ATTRS)
            case None => t.phase == Finish && t.rc == Malformed
            case Some(attrs) => Between(t, parts + [Part(attrs, data)])
  {
    var tail := CRLF + (data + cf.delimiter);
    var h := s.(phase := Headers, accumulator := []);
    OpenHeaders(cf, s);
    FeedAppend(cf, s, CRLF, Lines(lines) + tail);
    FeedAppend(cf, h, Lines(lines), tail);
    ReadLines(cf, h, lines);
    var t := Feed(cf, h, Lines(lines));
    if t.phase == Finish {
      FeedFinished(cf, t, tail);
    } else {
      ReadBody(cf, t, parts, data);
    }
  }

  /** The blank line behind the headers, the data and the next delimiter. */
  lemma ReadBody(cf: Conf, s: Parser, parts: seq<Part>, data: string)
    requires ValidConf(cf) && ValidParser(cf, s) && AcceptsAll(cf) && !Occurs(data, Mark(cf.delimiter))
    requires s.phase == Headers && s.accumulator == [] && s.boundaryStart == 0 && !s.discard && s.rc == Ok
    requires Finished(s.events) == parts
    ensures Between(Feed(cf, s, CRLF + (data + cf.delimiter)), parts + [Part(s.attrs, data)])
  {
    FeedAppend(cf, s, CRLF, data + cf.delimiter);
    FeedTwo(cf, s, '\r', '\n');
    var t := Feed(cf, s, CRLF);
    EventAppended(s.events, StartPart(s.attrs));
    assert t == Start(cf, s);
    assert Emitted(t) == [];
    ReadValue(cf, t, parts, data);
  }

  // ------------------------------------------------------------ file parts

  /** A file as clients send it: field, the name with its directories, the type, the data. */
  datatype FileField = FileField(name: string, path: string, base: string, contentType: string, data: string)

  predicate CleanFile(cf: Conf, f: FileField)
    requires ValidConf(cf)
  {
    && CleanName(f.name) && CleanName(f.path) && CleanName(f.base) && IsPath(f.path) && IsBase(f.base)
    && f.contentType != [] && f.contentType[0] != ' ' && Plain(f.contentType) && '\0' !in f.contentType
    && !Occurs(f.data, Mark(cf.delimiter))
  }

  function TypeLine(contentType: string): string {
    "Content-Type: " + contentType
  }

  function FileHeader(f: FileField): seq<string> {
    [FileLine(f.name, f.path + f.base), TypeLine(f.contentType)]
  }

  lemma FileHeaderPlain(f: FileField)
    requires Plain(f.name) && Plain(f.path) && Plain(f.base) && Plain(f.contentType)
    ensures Plain(FileLine(f.name, f.path + f.base)) && Plain(TypeLine(f.contentType))
  {
    FixedPlain();
    PlainJoin(LINE_START, f.name);
    PlainJoin(LINE_START + f.name, FILE_PART);
    PlainJoin(f.path, f.base);
    PlainJoin(LINE_START + f.name + FILE_PART, f.path + f.base);
    PlainJoin(LINE_START + f.name + FILE_PART + (f.path + f.base), "\"");
    PlainJoin("Content-Type: ", f.contentType);
  }

  lemma FixedPlain()
    ensures Plain(LINE_START) && Plain(FILE_PART) && Plain("\"") && Plain("Content-Type: ")
  {
    StartPlain();
  }

  lemma StartPlain()
    ensures Plain(LINE_START)
  {
  }

  lemma PlainJoin(a: string, b: string)
    requires Plain(a) && Plain(b)
    ensures Plain(a + b)
  {
  }

  lemma TwoLines(bufferLen: nat, line: string, line1: string, attrs: Attrs, attrs1: Attrs)
    requires ParseHeader(line, attrs) == Some(attrs1)
    ensures ParseLines(bufferLen, [line, line1], attrs)
         == if |line| < bufferLen && |line1| < bufferLen then ParseHeader(line1, attrs1) else None
  {
    assert [line][..0] == [] && ParseLines(bufferLen, [], attrs) == Some(attrs);
    assert [line, line1][..1] == [line];
    assert ParseLines(bufferLen, [line], attrs) == if |line| < bufferLen then Some(attrs1) else None;
  }

  predicate FileHeaderFits(cf: Conf, f: FileField) {
    |FileLine(f.name, f.path + f.base)| < cf.maxHeaderLen && |TypeLine(f.contentType)| < cf.maxHeaderLen
  }

  lemma FileHeaderParsed(cf: Conf, f: FileField)
    requires ValidConf(cf) && CleanFile(cf, f)
    ensures ParseLines(cf.maxHeaderLen, FileHeader(f), NO_ATTRS)
         == if FileHeaderFits(cf, f) then Some(Attrs(f.name, GivenName(f.name, f.path, f.base), f.contentType))
            else None
  {
    var line, typeLine := FileLine(f.name, f.path + f.base), TypeLine(f.contentType);
    var a := Attrs(f.name, GivenName(f.name, f.path, f.base), []);
    FileLineParsed(f.name, f.path, f.base, NO_ATTRS);
    TypeLineParsed(1, f.contentType, a);
    assert typeLine == CONTENT_TYPE + Spaces(1) + f.contentType;
    TwoLines(cf.maxHeaderLen, line, typeLine, NO_ATTRS, a);
  }

  /** A file part behind a delimiter is finished with its field name, file name, type and data, if its header lines
      fit the buffer. */
  lemma ReadFilePart(cf: Conf, s: Parser, parts: seq<Part>, f: FileField)
    requires ValidConf(cf) && ValidParser(cf, s) && AcceptsAll(cf) && Between(s, parts) && CleanFile(cf, f)
    ensures var t := Feed(cf, s, PartText(cf.delimiter, FileHeader(f), f.data));
            if FileHeaderFits(cf, f) then
              Between(t, parts + [Part(Attrs(f.name, GivenName(f.name, f.path, f.base), f.contentType), f.data)])
            else t.phase == Finish && t.rc == Malformed
  {
    FileHeaderPlain(f);
    FileHeaderParsed(cf, f);
    ReadPart(cf, s, parts, FileHeader(f), f.data);
  }
}
