/** ngx_rtmp_eval: `$name`, `${name}` and backslash in configured strings. */
module Eval {
  import opened Sequences

  type Table = seq<(string, string)>

  predicate Letter(c: char) {
    'a' <= c <= 'z' || 'A' <= c <= 'Z'
  }

  // ----------------------------------------------------------- meaning

  /** Every entry of every table that has the name, one value after the other. */
  function Value(tables: seq<Table>, name: string): string {
    if tables == [] then "" else ValueIn(tables[0], name) + Value(tables[1..], name)
  }

  function ValueIn(table: Table, name: string): string {
    if table == [] then ""
    else (if table[0].0 == name then table[0].1 else "") + ValueIn(table[1..], name)
  }

  /** The length of the letters in front. */
  function Letters(s: string): (n: nat)
    ensures n <= |s| && (n < |s| ==> !Letter(s[n])) && forall i | 0 <= i < n :: Letter(s[i])
  {
    if s == "" || !Letter(s[0]) then 0 else 1 + Letters(s[1..])
  }

  /** The place of the first closing brace, or |s|. */
  function Brace(s: string): (n: nat)
    ensures n <= |s| && (n < |s| ==> s[n] == '}') && forall i | 0 <= i < n :: s[i] != '}'
  {
    if s == "" || s[0] == '}' then 0 else 1 + Brace(s[1..])
  }

  /** What a string stands for, construct by construct. An escape or a brace that is not completed stands
      for nothing. */
  function Meaning(tables: seq<Table>, s: string): string
    decreases |s|, 0
  {
    if s == "" then ""
    else if s[0] == '\\' then AfterEscape(tables, s[1..])
    else if s[0] == '$' then AfterDollar(tables, s[1..])
    else [s[0]] + Meaning(tables, s[1..])
  }

  function AfterEscape(tables: seq<Table>, s: string): string
    decreases |s|, 0
  {
    if s == "" then "" else [s[0]] + Meaning(tables, s[1..])
  }

  function AfterDollar(tables: seq<Table>, s: string): string
    decreases |s|, 1
  {
    if s != "" && s[0] == '{' then AfterBrace(tables, s[1..])
    else Value(tables, s[..Letters(s)]) + Meaning(tables, s[Letters(s)..])
  }

  function AfterBrace(tables: seq<Table>, s: string): string
    decreases |s|, 0
  {
    var n := Brace(s);
    if n == |s| then "" else Value(tables, s[..n]) + Meaning(tables, s[n + 1..])
  }

  // -------------------------------------------------------------- laws

  /** A backslash before every dollar sign and backslash. */
  function Escape(s: string): string {
    if s == "" then ""
    else (if s[0] == '$' || s[0] == '\\' then ['\\', s[0]] else [s[0]]) + Escape(s[1..])
  }

  lemma {:induction false} EscapedIsLiteral(tables: seq<Table>, s: string)
    ensures Meaning(tables, Escape(s)) == s
  {
    if s != "" {
      EscapedIsLiteral(tables, s[1..]);
      var e := Escape(s);
      if s[0] == '$' || s[0] == '\\' {
        assert e[1..] == [s[0]] + Escape(s[1..]) && e[1..][1..] == Escape(s[1..]);
      } else {
        assert e[1..] == Escape(s[1..]);
      }
    }
  }

  /** All entries of all tables, in order. */
  function Entries(tables: seq<Table>): Table {
    if tables == [] then [] else tables[0] + Entries(tables[1..])
  }

  lemma {:induction false} ValueInAppends(a: Table, b: Table, name: string)
    ensures ValueIn(a + b, name) == ValueIn(a, name) + ValueIn(b, name)
  {
    if a == [] {
      assert a + b == b;
    } else {
      assert (a + b)[1..] == a[1..] + b;
      ValueInAppends(a[1..], b, name);
      var first := if a[0].0 == name then a[0].1 else "";
      assert first + (ValueIn(a[1..], name) + ValueIn(b, name)) == ValueIn(a, name) + ValueIn(b, name);
    }
  }

  lemma {:induction false} ValueOfEntries(tables: seq<Table>, name: string)
    ensures Value(tables, name) == ValueIn(Entries(tables), name)
  {
    if tables != [] {
      ValueOfEntries(tables[1..], name);
      ValueInAppends(tables[0], Entries(tables[1..]), name);
    }
  }

  lemma {:induction false} NotFound(table: Table, name: string)
    requires forall i | 0 <= i < |table| :: table[i].0 != name
    ensures ValueIn(table, name) == ""
  {
    if table != [] {
      NotFound(table[1..], name);
    }
  }

  /** A name that one entry has, among all tables, stands for the value of that entry. */
  lemma FoundOnce(tables: seq<Table>, name: string, k: nat)
    requires var es := Entries(tables);
             k < |es| && forall i | 0 <= i < |es| :: es[i].0 == name <==> i == k
    ensures Value(tables, name) == Entries(tables)[k].1
  {
    var es := Entries(tables);
    var rest := es[k..];
    ValueOfEntries(tables, name);
    assert es == es[..k] + rest && rest[1..] == es[k + 1..];
    ValueInAppends(es[..k], rest, name);
    NotFound(es[..k], name);
    NotFound(rest[1..], name);
  }

  /** A reference to a name, with braces, in front of a string. */
  lemma BracedReference(tables: seq<Table>, name: string, s: string)
    requires '}' !in name
    ensures Meaning(tables, "${" + name + "}" + s) == Value(tables, name) + Meaning(tables, s)
  {
    var text, r := "${" + name + "}" + s, name + "}" + s;
    assert text[1..] == "{" + r && text[1..][1..] == r;
    assert r[|name|] == '}' && forall i | 0 <= i < |name| :: r[i] == name[i] && name[i] in name;
    assert Brace(r) == |name|;
    assert r[..|name|] == name && r[|name| + 1..] == s;
    assert Meaning(tables, text) == AfterDollar(tables, "{" + r);
  }

  /** A reference without braces ends with the letters. */
  lemma PlainReference(tables: seq<Table>, name: string, s: string)
    requires forall c <- name :: 'a' <= c <= 'z' || 'A' <= c <= 'Z'
    requires s != "" ==> !('a' <= s[0] <= 'z' || 'A' <= s[0] <= 'Z')
    requires name + s != "" && (name + s)[0] != '{'
    ensures Meaning(tables, "$" + name + s) == Value(tables, name) + Meaning(tables, s)
  {
    var text, r := "$" + name + s, name + s;
    assert text[1..] == r;
    assert forall i | 0 <= i < |name| :: r[i] == name[i] && name[i] in name;
    LettersAre(r, |name|);
    assert r[..|name|] == name && r[|name|..] == s;
    assert Meaning(tables, text) == AfterDollar(tables, r);
  }

  /** Where a string leaves the evaluation: between constructs, or inside one. */
  datatype State = Normal | Escaped | Name | Braced

  function Ending(s: string): State
    decreases |s|, 0
  {
    if s == "" then Normal
    else if s[0] == '\\' then if |s| == 1 then Escaped else Ending(s[1..][1..])
    else if s[0] == '$' then DollarEnding(s[1..])
    else Ending(s[1..])
  }

  function DollarEnding(s: string): State
    decreases |s|, 1
  {
    if s != "" && s[0] == '{' then BraceEnding(s[1..])
    else if Letters(s) == |s| then Name
    else Ending(s[Letters(s)..])
  }

  function BraceEnding(s: string): State
    decreases |s|, 0
  {
    if Brace(s) == |s| then Braced else Ending(s[Brace(s) + 1..])
  }

  lemma {:induction false} LettersPrefix(a: string, b: string)
    requires Letters(a) < |a|
    ensures Letters(a + b) == Letters(a)
  {
    if Letter(a[0]) {
      assert (a + b)[1..] == a[1..] + b;
      LettersPrefix(a[1..], b);
    }
  }

  lemma {:induction false} BracePrefix(a: string, b: string)
    requires Brace(a) < |a|
    ensures Brace(a + b) == Brace(a)
  {
    if a[0] != '}' {
      assert (a + b)[1..] == a[1..] + b;
      BracePrefix(a[1..], b);
    }
  }

  /** What follows a string that ends between constructs does not change what it stands for. */
  lemma {:induction false} MeaningAppends(tables: seq<Table>, a: string, b: string)
    requires Ending(a) == Normal
    ensures Meaning(tables, a + b) == Meaning(tables, a) + Meaning(tables, b)
    decreases |a|, 0
  {
    if a == "" {
      assert a + b == b;
    } else {
      var r := a[1..];
      assert (a + b)[1..] == r + b;
      if a[0] == '\\' {
        assert (r + b)[1..] == r[1..] + b;
        MeaningAppends(tables, r[1..], b);
      } else if a[0] == '$' {
        DollarAppends(tables, r, b);
      } else {
        MeaningAppends(tables, r, b);
      }
    }
  }

  lemma {:induction false} DollarAppends(tables: seq<Table>, a: string, b: string)
    requires DollarEnding(a) == Normal
    ensures AfterDollar(tables, a + b) == AfterDollar(tables, a) + Meaning(tables, b)
    decreases |a|, 1
  {
    if a != "" && a[0] == '{' {
      assert (a + b)[1..] == a[1..] + b;
      BraceAppends(tables, a[1..], b);
    } else {
      var n := Letters(a);
      LettersPrefix(a, b);
      assert (a + b)[..n] == a[..n] && (a + b)[n..] == a[n..] + b;
      MeaningAppends(tables, a[n..], b);
      Assoc(Value(tables, a[..n]), Meaning(tables, a[n..]), Meaning(tables, b));
    }
  }

  lemma {:induction false} BraceAppends(tables: seq<Table>, a: string, b: string)
    requires BraceEnding(a) == Normal
    ensures AfterBrace(tables, a + b) == AfterBrace(tables, a) + Meaning(tables, b)
    decreases |a|, 0
  {
    var n, rest := Brace(a), a[Brace(a) + 1..];
    BracePrefix(a, b);
    assert (a + b)[..n] == a[..n] && (a + b)[n + 1..] == rest + b;
    BraceCloses(tables, a, n, rest);
    BraceCloses(tables, a + b, n, rest + b);
    MeaningAppends(tables, rest, b);
    Assoc(Value(tables, a[..n]), Meaning(tables, rest), Meaning(tables, b));
  }

  lemma BraceCloses(tables: seq<Table>, s: string, n: nat, rest: string)
    requires n == Brace(s) < |s| && rest == s[n + 1..]
    ensures AfterBrace(tables, s) == Value(tables, s[..n]) + Meaning(tables, rest)
  {
  }

  // ----------------------------------------------------------- evaluation

  /** The output buffer: it is replaced by a larger one when it is full. */
  class Buffer {
    var data: array<char>
    var last: nat

    predicate Valid()
      reads this
    {
      last <= data.Length
    }

    function Contents(): string
      requires Valid()
      reads this, data
    {
      data[..last]
    }

    constructor (size: nat)
      ensures Valid() && Contents() == "" && fresh(data)
    {
      data, last := new char[size](_ => ' '), 0;
    }

    /** A larger buffer with the same contents. */
    method Grow(more: nat)
      requires Valid()
      modifies this
      ensures Valid() && Contents() == old(Contents()) && last == old(last)
      ensures fresh(data) && last + more <= data.Length
    {
      var larger := new char[2 * last + more](_ => ' ');
      forall i | 0 <= i < last {
        larger[i] := data[i];
      }
      assert larger[..last] == data[..last];
      data := larger;
    }

    /** ngx_rtmp_eval_append */
    method Append(s: string)
      requires Valid()
      modifies this, data
      ensures Valid() && Contents() == old(Contents()) + s
      ensures data == old(data) || fresh(data)
    {
      if last + |s| > data.Length {
        Grow(|s|);
      }
      ghost var before := data[..last];
      forall i | 0 <= i < |s| {
        data[last + i] := s[i];
      }
      assert data[last..last + |s|] == s;
      assert data[..last + |s|] == before + s;
      last := last + |s|;
    }
  }

  /** What the rest of the input adds in a state; `start` is where the name begins. */
  function Rest(tables: seq<Table>, state: State, input: string, start: nat, n: nat): string
    requires start <= |input| && n <= |input|
  {
    match state
    case Normal => Meaning(tables, input[n..])
    case Escaped => AfterEscape(tables, input[n..])
    case Name => AfterDollar(tables, input[start..])
    case Braced => AfterBrace(tables, input[start..])
  }

  /** The characters of a name so far. */
  ghost predicate InName(state: State, input: string, start: nat, n: nat) {
    && start <= n <= |input|
    && (state == Name ==> forall i | start <= i < n :: Letter(input[i]))
    && (state == Braced ==> forall i | start <= i < n :: input[i] != '}')
  }

  // One character in each state: what goes out and what is left.

  lemma NormalStep(tables: seq<Table>, input: string, n: nat)
    requires n < |input|
    ensures Rest(tables, Normal, input, 0, n) ==
              match input[n]
              case '$' => Rest(tables, Name, input, n + 1, n + 1)
              case '\\' => Rest(tables, Escaped, input, 0, n + 1)
              case c => [c] + Rest(tables, Normal, input, 0, n + 1)
    ensures Rest(tables, Escaped, input, 0, n) == [input[n]] + Rest(tables, Normal, input, 0, n + 1)
  {
    assert input[n..][0] == input[n] && input[n..][1..] == input[n + 1..];
  }

  lemma {:induction false} LettersAre(s: string, n: nat)
    requires n <= |s| && (forall i | 0 <= i < n :: Letter(s[i])) && (n < |s| ==> !Letter(s[n]))
    ensures Letters(s) == n
  {
    if n > 0 {
      LettersAre(s[1..], n - 1);
    }
  }

  lemma {:induction false} BraceAt(s: string, n: nat)
    requires n <= |s| && (forall i | 0 <= i < n :: s[i] != '}') && (n < |s| ==> s[n] == '}')
    ensures Brace(s) == n
  {
    if n > 0 {
      BraceAt(s[1..], n - 1);
    }
  }

  /** A name ends before a character that is no letter, or with the input. */
  lemma NameEnds(tables: seq<Table>, input: string, start: nat, n: nat)
    requires InName(Name, input, start, n)
    requires n < |input| ==> !Letter(input[n]) && !(input[n] == '{' && start == n)
    ensures Rest(tables, Name, input, start, n) == Value(tables, input[start..n]) + Meaning(tables, input[n..])
  {
    var s, k := input[start..], n - start;
    assert s[..k] == input[start..n] && s[k..] == input[n..];
    LettersAre(s, k);
    if s != "" {
      assert s[0] == input[start];
    }
  }

  lemma BracedEnds(tables: seq<Table>, input: string, start: nat, n: nat)
    requires InName(Braced, input, start, n) && (n < |input| ==> input[n] == '}')
    ensures Rest(tables, Braced, input, start, n) ==
              if n == |input| then "" else Value(tables, input[start..n]) + Meaning(tables, input[n + 1..])
  {
    var s, k := input[start..], n - start;
    assert s[..k] == input[start..n];
    BraceAt(s, k);
    if k < |s| {
      assert s[k + 1..] == input[n + 1..];
    }
  }

  lemma BraceOpens(tables: seq<Table>, input: string, n: nat)
    requires n < |input| && input[n] == '{'
    ensures Rest(tables, Name, input, n, n) == Rest(tables, Braced, input, n + 1, n + 1)
  {
    assert input[n..][0] == '{' && input[n..][1..] == input[n + 1..];
  }

  /** ngx_rtmp_eval_append_var: every match in every table. */
  method AppendVar(b: Buffer, tables: seq<Table>, name: string)
    requires b.Valid()
    modifies b, b.data
    ensures b.Valid() && b.Contents() == old(b.Contents()) + Value(tables, name)
    ensures b.data == old(b.data) || fresh(b.data)
  {
    var i := 0;
    ghost var before := b.Contents();
    assert tables[0..] == tables;
    while i < |tables|
      invariant i <= |tables| && b.Valid()
      invariant b.data == old(b.data) || fresh(b.data)
      invariant b.Contents() + Value(tables[i..], name) == before + Value(tables, name)
    {
      AppendMatches(b, tables[i], name);
      assert tables[i..][0] == tables[i] && tables[i..][1..] == tables[i + 1..];
      i := i + 1;
    }
    assert tables[i..] == [];
  }

  method AppendMatches(b: Buffer, table: Table, name: string)
    requires b.Valid()
    modifies b, b.data
    ensures b.Valid() && b.Contents() == old(b.Contents()) + ValueIn(table, name)
    ensures b.data == old(b.data) || fresh(b.data)
  {
    var k := 0;
    ghost var before := b.Contents();
    assert table[0..] == table;
    while k < |table|
      invariant k <= |table| && b.Valid()
      invariant b.data == old(b.data) || fresh(b.data)
      invariant b.Contents() + ValueIn(table[k..], name) == before + ValueIn(table, name)
    {
      if table[k].0 == name {
        b.Append(table[k].1);
      }
      assert table[k..][0] == table[k] && table[k..][1..] == table[k + 1..];
      k := k + 1;
    }
    assert table[k..] == [];
  }

  /** A character between constructs. */
  method NormalChar(b: Buffer, tables: seq<Table>, input: string, n: nat) returns (state: State, start: nat)
    requires b.Valid() && n < |input|
    modifies b, b.data
    ensures b.Valid() && InName(state, input, start, n + 1) && (b.data == old(b.data) || fresh(b.data))
    ensures b.Contents() + Rest(tables, state, input, start, n + 1) == old(b.Contents()) + Meaning(tables, input[n..])
  {
    NormalStep(tables, input, n);
    var c := input[n];
    state, start := Normal, 0;
    if c == '$' {
      state, start := Name, n + 1;
    } else if c == '\\' {
      state := Escaped;
    } else {
      Assoc(b.Contents(), [c], Meaning(tables, input[n + 1..]));
      b.Append([c]);
    }
  }

  method NameChar(b: Buffer, tables: seq<Table>, input: string, start0: nat, n: nat) returns (state: State, start: nat)
    requires b.Valid() && n < |input| && InName(Name, input, start0, n)
    modifies b, b.data
    ensures b.Valid() && InName(state, input, start, n + 1) && (b.data == old(b.data) || fresh(b.data))
    ensures b.Contents() + Rest(tables, state, input, start, n + 1)
         == old(b.Contents()) + Rest(tables, Name, input, start0, n)
  {
    var c := input[n];
    state, start := Name, start0;
    if c == '{' && start == n {
      BraceOpens(tables, input, n);
      state, start := Braced, n + 1;
    } else if !Letter(c) {
      NameEnds(tables, input, start, n);
      Assoc(b.Contents(), Value(tables, input[start..n]), Meaning(tables, input[n..]));
      AppendVar(b, tables, input[start..n]);
      state, start := NormalChar(b, tables, input, n);
    }
  }

  method BracedChar(b: Buffer, tables: seq<Table>, input: string, start: nat, n: nat) returns (state: State)
    requires b.Valid() && n < |input| && InName(Braced, input, start, n)
    modifies b, b.data
    ensures b.Valid() && InName(state, input, start, n + 1) && (b.data == old(b.data) || fresh(b.data))
    ensures b.Contents() + Rest(tables, state, input, start, n + 1)
         == old(b.Contents()) + Rest(tables, Braced, input, start, n)
  {
    state := Braced;
    if input[n] == '}' {
      BracedEnds(tables, input, start, n);
      Assoc(b.Contents(), Value(tables, input[start..n]), Meaning(tables, input[n + 1..]));
      AppendVar(b, tables, input[start..n]);
      state := Normal;
    }
  }

  method EscapedChar(b: Buffer, tables: seq<Table>, input: string, n: nat)
    requires b.Valid() && n < |input|
    modifies b, b.data
    ensures b.Valid() && (b.data == old(b.data) || fresh(b.data))
    ensures b.Contents() + Meaning(tables, input[n + 1..]) == old(b.Contents()) + AfterEscape(tables, input[n..])
  {
    NormalStep(tables, input, n);
    Assoc(b.Contents(), [input[n]], Meaning(tables, input[n + 1..]));
    b.Append([input[n]]);
  }

  /** The switch over the states. */
  method OneChar(b: Buffer, tables: seq<Table>, input: string, state0: State, start0: nat, n: nat)
    returns (state: State, start: nat)
    requires b.Valid() && n < |input| && InName(state0, input, start0, n)
    modifies b, b.data
    ensures b.Valid() && InName(state, input, start, n + 1) && (b.data == old(b.data) || fresh(b.data))
    ensures b.Contents() + Rest(tables, state, input, start, n + 1)
         == old(b.Contents()) + Rest(tables, state0, input, start0, n)
  {
    match state0 {
      case Braced =>
        state := BracedChar(b, tables, input, start0, n);
        start := start0;
      case Name => state, start := NameChar(b, tables, input, start0, n);
      case Normal => state, start := NormalChar(b, tables, input, n);
      case Escaped =>
        EscapedChar(b, tables, input, n);
        state, start := Normal, 0;
    }
  }

  /** A name may end with the input. */
  method AtEnd(b: Buffer, tables: seq<Table>, input: string, state: State, start: nat)
    requires b.Valid() && InName(state, input, start, |input|)
    modifies b, b.data
    ensures b.Valid() && b.Contents() == old(b.Contents()) + Rest(tables, state, input, start, |input|)
  {
    assert input[|input|..] == "";
    if state == Name {
      NameEnds(tables, input, start, |input|);
      AppendVar(b, tables, input[start..|input|]);
    } else if state == Braced {
      BracedEnds(tables, input, start, |input|);
    }
  }

  /** ngx_rtmp_eval */
  method Evaluate(tables: seq<Table>, input: string) returns (out: string)
    ensures out == Meaning(tables, input)
  {
    var b := new Buffer(16);
    var state, start: nat, n: nat := Normal, 0, 0;
    ghost var goal := Meaning(tables, input);
    assert input[0..] == input;
    while n < |input|
      invariant n <= |input| && b.Valid() && fresh(b) && fresh(b.data) && InName(state, input, start, n)
      invariant b.Contents() + Rest(tables, state, input, start, n) == goal
    {
      state, start := OneChar(b, tables, input, state, start, n);
      n := n + 1;
    }
    AtEnd(b, tables, input, state, start);
    out := b.Contents();
  }
}
