/** What stands around the parts and between their lines: text in front of the first delimiter, padding behind a
    delimiter, line breaks without a carriage return, and headers of other names. */
module MultipartEdges {
  import opened Matcher
  import opened PartHeader
  import opened Multipart
  import opened PartInvariant
  import opened FieldPrinter
  import opened RoundTrip
  import opened FileParts
  import opened Wrappers

  /** Text without a dash in front of the first delimiter is skipped. */
  lemma {:induction false} PreambleSkipped(cf: Conf, text: string)
    requires ValidConf(cf) && '-' !in text
    ensures ValidParser(cf, INITIAL) && Feed(cf, INITIAL, text) == INITIAL
  {
    DelimiterChars(cf.delimiter);
    if text != [] {
      assert text[|text| - 1] in text;
      PreambleSkipped(cf, text[..|text| - 1]);
    }
  }

  lemma DelimiterBehindPreamble(cf: Conf, text: string)
    requires ValidConf(cf) && '-' !in text
    ensures ValidParser(cf, INITIAL) && Between(Feed(cf, INITIAL, text + cf.delimiter[2..]), [])
  {
    PreambleSkipped(cf, text);
    FirstDelimiter(cf);
    FeedAppend(cf, INITIAL, text, cf.delimiter[2..]);
  }

  /** The search does not look again at a character that did not match: a delimiter right behind a dash is
      missed, whatever the boundary, as long as no dash is in it. */
  lemma DelimiterBehindDash(cf: Conf)
    requires ValidConf(cf) && '-' !in cf.delimiter[4..]
    ensures ValidParser(cf, INITIAL) && Feed(cf, INITIAL, "-" + cf.delimiter[2..]) == INITIAL
  {
    var d := cf.delimiter;
    DelimiterChars(d);
    assert d[4] in d[4..];
    var two := "--";
    assert "-" + d[2..] == two + ("-" + d[4..]);
    FeedTwo(cf, INITIAL, '-', '-');
    FeedOne(cf, INITIAL.(boundaryPos := 4), '-');
    FeedAppend(cf, INITIAL, two, "-" + d[4..]);
    FeedAppend(cf, INITIAL.(boundaryPos := 4), "-", d[4..]);
    PreambleSkipped(cf, d[4..]);
  }

  /** What stands behind a delimiter on its line is ignored. */
  lemma {:induction false} PaddingIgnored(cf: Conf, s: Parser, text: string)
    requires ValidConf(cf) && ValidParser(cf, s) && s.phase == AfterBoundary && '\n' !in text && '-' !in text
    ensures Feed(cf, s, text) == s
  {
    if text != [] {
      assert text[|text| - 1] in text;
      PaddingIgnored(cf, s, text[..|text| - 1]);
    }
  }

  /** A header line may end with a line feed alone. */
  lemma BareLineFeed(cf: Conf, s: Parser, line: string)
    requires ValidConf(cf) && ValidParser(cf, s) && s.phase == Headers && s.accumulator == [] && IsLine(line)
    ensures Feed(cf, s, line + "\n") == Feed(cf, s, line + CRLF)
  {
    FeedAppend(cf, s, line, "\n");
    FeedAppend(cf, s, line, CRLF);
    if |line| < cf.maxHeaderLen {
      FeedLine(cf, s, line);
      assert [] + line == line;
      FeedOne(cf, s.(accumulator := line), '\n');
      FeedTwo(cf, s.(accumulator := line), '\r', '\n');
    } else {
      FeedLongLine(cf, s, line);
      FeedFinished(cf, Feed(cf, s, line), "\n");
      FeedFinished(cf, Feed(cf, s, line), CRLF);
    }
  }

  /** A header whose name is neither of the two known ones says nothing of the part. */
  lemma OtherHeader(line: string, attrs: Attrs)
    requires line == [] || !SameLetter(line[0], 'C')
    ensures ParseHeader(line, attrs) == Some(attrs)
  {
  }
}
