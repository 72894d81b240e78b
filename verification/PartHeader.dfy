/** The header lines of a part (upload_parse_part_header, upload_parse_content_disposition). The line
    comes from a C buffer, so text behind a NUL is out of reach of the string functions. */
module PartHeader {
  import opened Wrappers

  const CONTENT_DISPOSITION := "Content-Disposition:"
  const CONTENT_TYPE := "Content-Type:"
  const FORM_DATA := "form-data"
  const ATTACHMENT := "attachment"
  const FILENAME := "filename=\""
  const FIELDNAME := "name=\""

  /** What is known of a part; an attribute that was not given is empty. */
  datatype Attrs = Attrs(fieldName: string, fileName: string, contentType: string)

  const NO_ATTRS := Attrs([], [], [])

  function Lower(c: char): char {
    if 'A' <= c <= 'Z' then (c as int + 32) as char else c
  }

  /** strncasecmp(prefix, s, strlen(prefix)) == 0 */
  predicate StartsWith(s: string, prefix: string) {
    |prefix| <= |s| && forall i | 0 <= i < |prefix| :: Lower(s[i]) == Lower(prefix[i])
  }

  /** The length of the prefix of `s` without the character c (strcspn). */
  function Until(s: string, c: char): (n: nat)
    ensures n <= |s| && c !in s[..n] && (n < |s| ==> s[n] == c)
  {
    if s == [] || s[0] == c then 0
    else
      var n := Until(s[1..], c);
      assert s[..n + 1] == [s[0]] + s[1..][..n];
      n + 1
  }

  function CString(s: string): string {
    s[..Until(s, '\0')]
  }

  /** strncpy into a zeroed buffer of the same length. */
  function ZeroPadded(s: string): string {
    var t := CString(s);
    t + seq(|s| - |t|, _ => '\0')
  }

  function SkipSpaces(s: string): string {
    if s != [] && s[0] == ' ' then SkipSpaces(s[1..]) else s
  }

  predicate At(s: string, pat: string, i: nat) {
    i + |pat| <= |s| && s[i..i + |pat|] == pat
  }

  /** strstr, as an offset. */
  function Find(s: string, pat: string): (r: Option<nat>)
    ensures r.Some? ==> At(s, pat, r.value) && forall j: nat | j < r.value :: !At(s, pat, j)
    ensures r.None? ==> forall j: nat | j <= |s| :: !At(s, pat, j)
  {
    FindFrom(s, pat, 0)
  }

  function FindFrom(s: string, pat: string, i: nat): (r: Option<nat>)
    requires i <= |s| && forall j: nat | j < i :: !At(s, pat, j)
    ensures r.Some? ==> At(s, pat, r.value) && forall j: nat | j < r.value :: !At(s, pat, j)
    ensures r.None? ==> forall j: nat | j <= |s| :: !At(s, pat, j)
    decreases |s| - i
  {
    if At(s, pat, i) then Some(i)
    else if i == |s| then None
    else FindFrom(s, pat, i + 1)
  }

  /** Drops everything up to the last path separator; one at the very start is not seen. */
  function StripPath(name: string, i: nat): string
    requires i <= |name|
  {
    if i < 2 then name
    else if name[i - 1] == '\\' || name[i - 1] == '/' then name[i..]
    else StripPath(name, i - 1)
  }

  /** The value of a quoted attribute that starts at `i`; None if the quote is never closed. */
  function Quoted(s: string, i: nat): Option<string>
    requires i <= |s|
  {
    var n := Until(s[i..], '"');
    if i + n == |s| then None else Some(s[i..i + n])
  }

  /** The name attribute is the first `name="`, which may be the tail of `filename="`: then, unless
      a path was stripped from the file name, there is no name. */
  function ParseDisposition(s: string, attrs: Attrs): Option<Attrs> {
    if !StartsWith(s, FORM_DATA) && !StartsWith(s, ATTACHMENT) then None
    else
      var fi := Find(s, FILENAME);
      var file := if fi.Some? then Quoted(s, fi.value + |FILENAME|) else Some(attrs.fileName);
      if file.None? then None
      else
        var fileName := if fi.Some? then StripPath(file.value, |file.value|) else attrs.fileName;
        var ni := Find(s, FIELDNAME);
        if ni.None? then Some(attrs.(fileName := fileName))
        else
          var start := ni.value + |FIELDNAME|;
          if fi.Some? && start == fi.value + |FILENAME| + |file.value| - |fileName| then
            Some(attrs.(fileName := fileName))
          else
            var name := Quoted(s, start);
            if name.None? then None else Some(attrs.(fileName := fileName, fieldName := name.value))
  }

  function ParseHeader(line: string, attrs: Attrs): Option<Attrs> {
    if StartsWith(line, CONTENT_DISPOSITION) then
      ParseDisposition(CString(SkipSpaces(line[|CONTENT_DISPOSITION|..])), attrs)
    else if StartsWith(line, CONTENT_TYPE) then
      var value := SkipSpaces(line[|CONTENT_TYPE|..]);
      if value == [] then None else Some(attrs.(contentType := ZeroPadded(value)))
    else Some(attrs)
  }
}
