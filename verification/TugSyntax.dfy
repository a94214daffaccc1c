/** Reading Tugconf text: comments, quotes, tokens, values and commands. */
module TugSyntax {
  import opened Text
  import opened TugTree

  // ---------------------------------------------------------------- values

  predicate IsDigit(c: char) {
    '0' <= c <= '9'
  }

  function DigitValue(c: char): nat
    requires IsDigit(c)
  {
    c as int - '0' as int
  }

  predicate AllDigits(s: string) {
    s != "" && forall i | 0 <= i < |s| :: IsDigit(s[i])
  }

  function DigitsValue(s: string): nat
    requires forall i | 0 <= i < |s| :: IsDigit(s[i])
  {
    if s == "" then 0 else DigitsValue(s[..|s| - 1]) * 10 + DigitValue(s[|s| - 1])
  }

  const MIN_INT64 := -0x8000_0000_0000_0000
  const MAX_INT64 := 0x7FFF_FFFF_FFFF_FFFF

  /** strconv.ParseInt(s, 10, 64). */
  function ParseInt(s: string): Option<int> {
    var signed := s != "" && (s[0] == '-' || s[0] == '+');
    var digits := if signed then s[1..] else s;
    if !AllDigits(digits) then None
    else
      var d: int := DigitsValue(digits);
      var n := if signed && s[0] == '-' then -d else d;
      if MIN_INT64 <= n <= MAX_INT64 then Some(n) else None
  }

  lemma {:induction false} DigitsRoundTrip(n: nat)
    ensures AllDigits(Digits(n)) && DigitsValue(Digits(n)) == n
  {
    if n < 10 {
      assert Digits(n) == [Digit(n)];
      assert Digits(n)[..0] == "";
    } else {
      DigitsRoundTrip(n / 10);
      var s := Digits(n);
      assert s[..|s| - 1] == Digits(n / 10);
      assert s[|s| - 1] == Digit(n % 10);
    }
  }

  lemma IntRoundTrip(n: int)
    requires MIN_INT64 <= n <= MAX_INT64
    ensures ParseInt(FormatInt(n)) == Some(n)
  {
    var d := if n < 0 then -n else n;
    DigitsRoundTrip(d);
    var s := FormatInt(n);
    if n < 0 {
      assert s[1..] == Digits(d);
    } else {
      assert IsDigit(s[0]);
    }
  }

  /** Index of the first white space, or the length of `s`. */
  function SpaceIndex(s: string): (i: nat)
    ensures i <= |s|
    ensures forall j | 0 <= j < i :: !IsSpace(s[j])
    ensures i < |s| ==> IsSpace(s[i])
  {
    if s == "" || IsSpace(s[0]) then 0 else SpaceIndex(s[1..]) + 1
  }

  /** strings.Fields. */
  function Fields(s: string): seq<string>
    decreases |s|
  {
    TrimLeftCuts(s);
    var t := TrimLeft(s);
    if t == "" then []
    else
      var i := SpaceIndex(t);
      [t[..i]] + Fields(t[i..])
  }

  function TrimmedNonEmpty(parts: seq<string>): seq<string> {
    if parts == [] then []
    else
      var p := TrimSpace(parts[0]);
      if p == "" then TrimmedNonEmpty(parts[1..]) else [p] + TrimmedNonEmpty(parts[1..])
  }

  function StrList(parts: seq<string>): (t: Tree)
    ensures t.List? && |t.items| == |parts|
  {
    List(seq(|parts|, i requires 0 <= i < |parts| => Leaf(Str(parts[i]))))
  }

  /** The inside of a bracket list: split on commas, else on white space. */
  function ParseItems(inner: string): seq<string> {
    if ',' in inner then TrimmedNonEmpty(Split(inner, ',')) else Fields(inner)
  }

  predicate Bracketed(s: string) {
    |s| >= 2 && s[0] == '[' && s[|s| - 1] == ']'
  }

  function ParseTugValue(e: Fmt, raw: string): Tree {
    var s := TrimSpace(raw);
    if Bracketed(s) then
      var inner := TrimSpace(s[1..|s| - 1]);
      if inner == "" then List([]) else StrList(ParseItems(inner))
    else if s == "true" then Leaf(Bool(true))
    else if s == "false" then Leaf(Bool(false))
    else if ParseInt(s).Some? then Leaf(Int(ParseInt(s).value))
    else if e.parseFloat(s).Some? && '.' in s then Leaf(Float(e.parseFloat(s).value))
    else Leaf(Str(s))
  }

  // ---------------------------------------------------------------- tokens

  predicate IsBlank(c: char) {
    c == ' ' || c == '\t'
  }

  /** The fields of `s` when the scanner is inside quotes iff `inQ` and holds `b` of the current
      field; None for an unterminated quote. */
  function Tokens(s: string, inQ: bool, b: string): Option<seq<string>>
    decreases |s|
  {
    if s == "" then
      if inQ then None else Some(if b == "" then [] else [b])
    else if s[0] == '"' then Tokens(s[1..], !inQ, b)
    else if IsBlank(s[0]) && !inQ then
      var rest := Tokens(s[1..], inQ, "");
      if b == "" || rest.None? then rest else Some([b] + rest.value)
    else Tokens(s[1..], inQ, b + [s[0]])
  }

  function After(done: seq<string>, rest: Option<seq<string>>): Option<seq<string>> {
    if rest.None? then None else Some(done + rest.value)
  }

  lemma AfterNothing(rest: Option<seq<string>>)
    ensures After([], rest) == rest
  {
    assert rest.Some? ==> [] + rest.value == rest.value;
  }

  /** The tokenizer loop. */
  method SplitTugFields(line: string) returns (r: Option<seq<string>>)
    ensures r == Tokens(line, false, "")
  {
    var out: seq<string> := [];
    var b := "";
    var inQ := false;
    var i := 0;
    AfterNothing(Tokens(line, false, ""));
    assert line[0..] == line;
    while i < |line|
      invariant 0 <= i <= |line|
      invariant Tokens(line, false, "") == After(out, Tokens(line[i..], inQ, b))
    {
      var c := line[i];
      assert line[i..][1..] == line[i + 1..];
      if c == '"' {
        inQ := !inQ;
      } else if IsBlank(c) && !inQ {
        if b != "" {
          ghost var rest := Tokens(line[i + 1..], inQ, "");
          assert rest.Some? ==> out + ([b] + rest.value) == out + [b] + rest.value;
          out := out + [b];
          b := "";
        }
      } else {
        b := b + [c];
      }
      i := i + 1;
    }
    assert line[i..] == "";
    assert out + [] == out;
    if inQ {
      return None;
    }
    if b != "" {
      out := out + [b];
    }
    return Some(out);
  }

  /** Index of the first `ch` outside quotes, or the length of `s`. */
  function UnquotedIndex(s: string, ch: char, inQ: bool): (i: nat)
    ensures i <= |s|
  {
    if s == "" then 0
    else if s[0] == '"' then UnquotedIndex(s[1..], ch, !inQ) + 1
    else if s[0] == ch && !inQ then 0
    else UnquotedIndex(s[1..], ch, inQ) + 1
  }

  /** The comment scanner; -1 when there is no such character. */
  method IndexUnquoted(s: string, ch: char) returns (r: int)
    ensures r == if UnquotedIndex(s, ch, false) < |s| then UnquotedIndex(s, ch, false) else -1
  {
    var inQ := false;
    var i := 0;
    while i < |s|
      invariant 0 <= i <= |s|
      invariant UnquotedIndex(s, ch, false) == i + UnquotedIndex(s[i..], ch, inQ)
    {
      assert s[i..][1..] == s[i + 1..];
      if s[i] == '"' {
        inQ := !inQ;
      } else if s[i] == ch && !inQ {
        return i;
      }
      i := i + 1;
    }
    return -1;
  }

  // ---------------------------------------------------------------- commands

  datatype Command =
    | Skip
    | Set(path: seq<string>, val: Tree)
    | Delete(path: seq<string>)
    | Load(mode: string, file: string)
    | Bad(error: Error)

  function StripComment(line: string): string {
    var i := UnquotedIndex(line, '#', false);
    if i < |line| then TrimSpace(line[..i]) else line
  }

  function FieldsCommand(e: Fmt, fields: seq<string>): Command {
    if fields == [] then Skip
    else
      var n := |fields|;
      match ToLower(fields[0])
      case "set" =>
        if n < 3 then Bad(SetNeedsValue) else Set(fields[1..n - 1], ParseTugValue(e, fields[n - 1]))
      case "delete" => if n < 2 then Bad(DeleteNeedsPath) else Delete(fields[1..])
      case "load" => if n < 3 then Bad(LoadNeedsFile) else Load(ToLower(fields[1]), fields[2])
      case "show" => Skip
      case "commit" => Skip
      case "edit" => Skip
      case "top" => Skip
      case "up" => Skip
      case "rollback" => Skip
      case _ => Bad(UnknownCommand)
  }

  function LineCommand(e: Fmt, line: string): Command {
    match Tokens(line, false, "")
    case None => Bad(UnterminatedQuote)
    case Some(fields) => FieldsCommand(e, fields)
  }

  /** The command on one raw source line. */
  function ParseLine(e: Fmt, raw: string): Command {
    var line := TrimSpace(raw);
    if line == "" || line[0] == '#' then Skip
    else
      var code := StripComment(line);
      if code == "" then Skip else LineCommand(e, code)
  }

  function Exec(e: Fmt, m: TreeMap, c: Command): Result {
    match c
    case Skip => Ok(m)
    case Set(path, val) => TreeSet(e, m, path, val)
    case Delete(path) => TreeDelete(e, m, path)
    case Load(_, _) => Err(LoadReadsFile)
    case Bad(error) => Err(error)
  }

  /** Lines in order, stopping at the first error. */
  function ApplyLines(e: Fmt, m: TreeMap, lines: seq<string>): Result
    decreases |lines|
  {
    if lines == [] then Ok(m)
    else
      var r := Exec(e, m, ParseLine(e, lines[0]));
      if r.Err? then r else ApplyLines(e, r.tree, lines[1..])
  }

  function ApplySource(e: Fmt, m: TreeMap, src: string): Result {
    ApplyLines(e, m, Split(src, '\n'))
  }

  /** The work on one line before its command runs. */
  method ReadLine(e: Fmt, raw: string) returns (c: Command)
    ensures c == ParseLine(e, raw)
  {
    var line := TrimSpace(raw);
    if line == "" || line[0] == '#' {
      return Skip;
    }
    var idx := IndexUnquoted(line, '#');
    if idx >= 0 {
      line := TrimSpace(line[..idx]);
      if line == "" {
        return Skip;
      }
    }
    var fields := SplitTugFields(line);
    if fields.None? {
      return Bad(UnterminatedQuote);
    }
    return FieldsCommand(e, fields.value);
  }

  /** The line loop. */
  method ApplyTugconfSource(e: Fmt, m: TreeMap, src: string) returns (r: Result)
    ensures r == ApplySource(e, m, src)
  {
    var lines := Split(src, '\n');
    var tree := m;
    for i := 0 to |lines|
      invariant ApplyLines(e, m, lines) == ApplyLines(e, tree, lines[i..])
    {
      assert lines[i..][0] == lines[i] && lines[i..][1..] == lines[i + 1..];
      var c := ReadLine(e, lines[i]);
      var step := Exec(e, tree, c);
      if step.Err? {
        return step;
      }
      tree := step.tree;
    }
    return Ok(tree);
  }

  lemma {:induction false} ApplyLinesConcat(e: Fmt, m: TreeMap, a: seq<string>, b: seq<string>)
    ensures var r := ApplyLines(e, m, a);
            ApplyLines(e, m, a + b) == if r.Err? then r else ApplyLines(e, r.tree, b)
    decreases |a|
  {
    if a == [] {
      assert a + b == b;
    } else {
      assert (a + b)[0] == a[0] && (a + b)[1..] == a[1..] + b;
      var r := Exec(e, m, ParseLine(e, a[0]));
      if r.Ok? {
        ApplyLinesConcat(e, r.tree, a[1..], b);
      }
    }
  }

  // ---------------------------------------------------------------- tokenizer inverse

  /** Characters that are neither blank nor meaningful to the line scanner. */
  predicate PlainChars(s: string) {
    forall i | 0 <= i < |s| :: s[i] != '"' && s[i] != '#' && !IsBlank(s[i])
  }

  predicate PlainTokens(ts: seq<string>) {
    forall i | 0 <= i < |ts| :: ts[i] != "" && PlainChars(ts[i])
  }

  lemma {:induction false} TokensPlain(t: string, rest: string, b: string)
    requires PlainChars(t)
    ensures Tokens(t + rest, false, b) == Tokens(rest, false, b + t)
    decreases |t|
  {
    if t == "" {
      assert t + rest == rest && b + t == b;
    } else {
      assert (t + rest)[1..] == t[1..] + rest;
      TokensPlain(t[1..], rest, b + [t[0]]);
      assert b + [t[0]] + t[1..] == b + t;
    }
  }

  lemma {:induction false} TokensQuoted(t: string, rest: string, b: string)
    requires '"' !in t
    ensures Tokens(t + "\"" + rest, true, b) == Tokens(rest, false, b + t)
    decreases |t|
  {
    var s := t + "\"" + rest;
    if t == "" {
      assert s[1..] == rest && b + t == b;
    } else {
      assert s[1..] == t[1..] + "\"" + rest;
      TokensQuoted(t[1..], rest, b + [t[0]]);
      assert b + [t[0]] + t[1..] == b + t;
    }
  }

  /** Blank-separated plain tokens come back one by one. */
  lemma {:induction false} TokensJoin(ts: seq<string>, rest: string, fields: seq<string>)
    requires ts != [] && PlainTokens(ts)
    requires Tokens(rest, false, "") == Some(fields)
    ensures Tokens(Join(ts, ' ') + " " + rest, false, "") == Some(ts + fields)
    decreases |ts|
  {
    var t := ts[0];
    if |ts| == 1 {
      assert Join(ts, ' ') + " " + rest == t + (" " + rest);
      TokensPlain(t, " " + rest, "");
      assert (" " + rest)[1..] == rest;
      assert "" + t == t && ts == [t];
    } else {
      var tail := Join(ts[1..], ' ') + " " + rest;
      TokensJoin(ts[1..], rest, fields);
      assert Join(ts, ' ') + " " + rest == t + (" " + tail);
      TokensPlain(t, " " + tail, "");
      assert (" " + tail)[1..] == tail;
      assert "" + t == t && ts == [t] + ts[1..];
      assert [t] + (ts[1..] + fields) == ts + fields;
    }
  }

  /** The text of a value as written: bare, or between double quotes. */
  predicate ValueText(text: string, body: string) {
    || (text == body && PlainChars(body))
    || (text == "\"" + body + "\"" && '"' !in body)
  }

  lemma TokensValue(text: string, body: string)
    requires ValueText(text, body) && body != ""
    ensures Tokens(text, false, "") == Some([body])
  {
    if text == body && PlainChars(body) {
      TokensPlain(body, "", "");
      assert body + "" == body && "" + body == body;
    } else {
      assert text[1..] == body + "\"" + "";
      TokensQuoted(body, "", "");
      assert "" + body == body;
    }
  }

  lemma {:induction false} NoCommentPlain(t: string, rest: string)
    requires forall i | 0 <= i < |t| :: t[i] != '"' && t[i] != '#'
    ensures UnquotedIndex(t + rest, '#', false) == |t| + UnquotedIndex(rest, '#', false)
    decreases |t|
  {
    if t == "" {
      assert t + rest == rest;
    } else {
      assert (t + rest)[1..] == t[1..] + rest;
      NoCommentPlain(t[1..], rest);
    }
  }

  lemma {:induction false} NoCommentQuoted(t: string)
    requires '"' !in t
    ensures UnquotedIndex(t + "\"", '#', true) == |t| + 1
    decreases |t|
  {
    if t != "" {
      assert (t + "\"")[1..] == t[1..] + "\"";
      NoCommentQuoted(t[1..]);
    } else {
      assert (t + "\"")[1..] == "";
    }
  }

  lemma NoCommentInValue(text: string, body: string)
    requires ValueText(text, body)
    ensures UnquotedIndex(text, '#', false) == |text|
  {
    if text == body && PlainChars(body) {
      NoCommentPlain(body, "");
      assert body + "" == body;
    } else {
      assert text[1..] == body + "\"";
      NoCommentQuoted(body);
    }
  }

  lemma {:induction false} JoinedPlain(ts: seq<string>)
    requires PlainTokens(ts)
    ensures forall i | 0 <= i < |Join(ts, ' ')| :: Join(ts, ' ')[i] != '"' && Join(ts, ' ')[i] != '#'
  {
    if |ts| > 1 {
      JoinedPlain(ts[1..]);
      var tail := Join(ts[1..], ' ');
      var s := Join(ts, ' ');
      assert s == ts[0] + [' '] + tail;
      forall i | 0 <= i < |s| ensures s[i] != '"' && s[i] != '#' {
        assert s[i] == if i < |ts[0]| then ts[0][i] else if i == |ts[0]| then ' ' else tail[i - |ts[0]| - 1];
      }
    }
  }

  /** The inverse of printing one `set` line. */
  lemma SetLineParses(e: Fmt, path: seq<string>, text: string, body: string)
    requires path != [] && PlainTokens(path)
    requires ValueText(text, body) && body != "" && Trimmed(text)
    ensures ParseLine(e, "set " + Join(path, ' ') + " " + text) == Set(path, ParseTugValue(e, body))
  {
    var line := "set " + Join(path, ' ') + " " + text;
    SetLineTokens(path, text, body);
    assert line[0] == 's' && line[|line| - 1] == text[|text| - 1];
    TrimSpaceOfTrimmed(line);
    SetFields(e, path, body);
  }

  lemma SetFields(e: Fmt, path: seq<string>, body: string)
    requires path != []
    ensures FieldsCommand(e, ["set"] + path + [body]) == Set(path, ParseTugValue(e, body))
  {
    var fields := ["set"] + path + [body];
    assert fields[1..|fields| - 1] == path;
    assert ToLower("set") == "set";
  }

  lemma SetLineTokens(path: seq<string>, text: string, body: string)
    requires path != [] && PlainTokens(path)
    requires ValueText(text, body) && body != ""
    ensures var line := "set " + Join(path, ' ') + " " + text;
            UnquotedIndex(line, '#', false) == |line| && Tokens(line, false, "") == Some(["set"] + path + [body])
  {
    var ts := ["set"] + path;
    var head := Join(ts, ' ') + " ";
    assert ts[1..] == path;
    assert Join(ts, ' ') == "set" + [' '] + Join(path, ' ');
    assert "set " + Join(path, ' ') + " " + text == head + text;
    JoinedPlain(ts);
    NoCommentPlain(head, text);
    NoCommentInValue(text, body);
    TokensValue(text, body);
    TokensJoin(ts, text, [body]);
  }
}
