/** The generator of multipart bodies (ngx_media_upload_append_field and the closing delimiter of
    ngx_media_upload_body_handler), and what the parser makes of its output. */
module FieldPrinter {
  import opened Matcher
  import opened PartHeader
  import opened Multipart
  import opened PartInvariant
  import opened Wrappers

  datatype FormField = FormField(name: string, value: string)

  const CRLF := "\r\n"
  const LINE_START := "Content-Disposition: form-data; name=\""

  /** ngx_upload_field_part1 and ngx_upload_field_part2 */
  const FIELD_PART1 := CRLF + LINE_START
  const FIELD_PART2 := "\"" + CRLF + CRLF

  /** A field without a name is not printed at all. */
  function PrintField(delimiter: string, f: FormField): string {
    if f.name == [] then [] else delimiter + FIELD_PART1 + f.name + FIELD_PART2 + f.value
  }

  /** The fields behind the first one. */
  function PrintRest(delimiter: string, fs: seq<FormField>): (r: string)
    ensures r == [] || |r| >= |delimiter|
  {
    if fs == [] then [] else PrintRest(delimiter, fs[..|fs| - 1]) + PrintField(delimiter, fs[|fs| - 1])
  }

  /** The delimiter in front of the first field is printed without its CR LF. */
  function PrintBody(delimiter: string, fs: seq<FormField>): string
    requires IsDelimiter(delimiter)
  {
    var fields := PrintRest(delimiter, fs);
    (if fields == [] then [] else fields[2..]) + delimiter + "--\r\n"
  }

  // ------------------------------------------------------ the header line

  predicate EndsWith(s: string, pat: string) {
    |pat| <= |s| && s[|s| - |pat|..] == pat
  }

  /** The attribute text of a printed header line. */
  function Disposition(name: string): string {
    "form-data; name=\"" + name + "\""
  }

  lemma UntilIs(s: string, n: nat, c: char)
    requires n <= |s| && c !in s[..n] && (n < |s| ==> s[n] == c)
    ensures Until(s, c) == n
  {
    var m := Until(s, c);
    assert forall i | 0 <= i < n :: s[i] in s[..n];
    assert forall i | 0 <= i < m :: s[i] in s[..m];
  }

  lemma QuotesOf(name: string)
    requires '"' !in name
    ensures var t := Disposition(name);
            |t| == 18 + |name| && forall i | 0 <= i < |t| :: t[i] == '"' <==> i == 16 || i == |t| - 1
  {
    var t := Disposition(name);
    assert forall i | 17 <= i < |t| - 1 :: t[i] == name[i - 17];
    assert forall i | 0 <= i < 17 :: t[i] == "form-data; name=\""[i];
  }

  /** `name="` is found at its only place. */
  lemma FindName(name: string)
    requires '"' !in name
    ensures Find(Disposition(name), FIELDNAME) == Some(11)
  {
    var t := Disposition(name);
    QuotesOf(name);
    assert t[11..17] == "form-data; name=\""[11..17] == FIELDNAME;
    assert At(t, FIELDNAME, 11);
    var r := Find(t, FIELDNAME);
    var i := r.value;
    assert t[i..i + 6][5] == t[i + 5] == '"';
  }

  /** `filename="` can only be found where the name ends in `filename=`. */
  lemma FindFilename(name: string)
    requires '"' !in name
    ensures Find(Disposition(name), FILENAME)
         == if EndsWith(name, "filename=") then Some(8 + |name|) else None
  {
    var t := Disposition(name);
    var k := |t| - 10;
    QuotesOf(name);
    forall i: nat | At(t, FILENAME, i) ensures i == k && EndsWith(name, "filename=") {
      assert t[i..i + 10][9] == t[i + 9] == '"';
      assert t[i..i + 10][0] == t[i] == 'f';
      assert t[7] == 't';
      FilenameSuffix(name, i);
    }
    if EndsWith(name, "filename=") {
      assert t[k..k + 10] == name[|name| - 9..] + "\"";
      assert At(t, FILENAME, k);
    }
  }

  lemma FilenameSuffix(name: string, i: nat)
    requires '"' !in name && At(Disposition(name), FILENAME, i) && i == 8 + |name|
    ensures EndsWith(name, "filename=")
  {
    var t := Disposition(name);
    QuotesOf(name);
    assert forall j | 0 <= j < 9 :: t[i..i + 10][j] == FILENAME[j] != '"';
    assert forall j | i <= j < i + 9 :: t[j] == t[i..i + 10][j - i] != '"';
    assert t[16] == '"';
    assert t[i..i + 10][..9] == t[i..i + 9] == name[|name| - 9..];
    assert FILENAME[..9] == "filename=";
  }

  lemma PrintedDisposition(name: string)
    requires CleanName(name)
    ensures ParseDisposition(Disposition(name), NO_ATTRS)
         == if EndsWith(name, "filename=") then None else Some(Attrs(name, [], []))
  {
    var t := Disposition(name);
    assert t[..9] == FORM_DATA;
    assert forall i | 0 <= i < 9 :: t[i] == t[..9][i];
    FindName(name);
    FindFilename(name);
    if EndsWith(name, "filename=") {
      assert t[8 + |name| + 10..] == [];
    } else {
      assert t[17..] == name + "\"";
      UntilIs(t[17..], |name|, '"');
      assert t[17..17 + |name|] == name;
    }
  }

  lemma PrintedLine(name: string)
    requires CleanName(name)
    ensures ParseHeader(LINE_START + name + "\"", NO_ATTRS)
         == if EndsWith(name, "filename=") then None else Some(Attrs(name, [], []))
  {
    var line, t := LINE_START + name + "\"", Disposition(name);
    assert line[..20] == CONTENT_DISPOSITION;
    assert forall i | 0 <= i < 20 :: line[i] == line[..20][i];
    assert line[20..] == " " + t;
    assert SkipSpaces(line[20..]) == t by {
      assert (" " + t)[1..] == t && t[0] == 'f';
    }
    NoNul(name);
    PrintedDisposition(name);
  }

  lemma NoNul(name: string)
    requires '\0' !in name
    ensures CString(Disposition(name)) == Disposition(name)
  {
    var t := Disposition(name);
    assert '\0' !in "form-data; name=\"" && '\0' !in "\"";
    assert t[..|t|] == t;
    UntilIs(t, |t|, '\0');
  }
}
