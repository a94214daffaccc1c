/** Exactly which strings survive being printed as a `set` line and read again. */
module TugExact {
  import opened Text
  import opened TugTree
  import opened TugSyntax
  import opened TugPrint
  import opened TugRebuild
  import opened TugRoundTrip

  // ---------------------------------------------------------------- what a line can set

  /** A token never holds a double quote. */
  lemma {:induction false} TokensHoldNoQuote(s: string, inQ: bool, b: string)
    requires '"' !in b
    ensures Tokens(s, inQ, b).Some? ==> forall t | t in Tokens(s, inQ, b).value :: '"' !in t
    decreases |s|
  {
    if s != "" {
      if s[0] == '"' {
        TokensHoldNoQuote(s[1..], !inQ, b);
      } else if IsBlank(s[0]) && !inQ {
        TokensHoldNoQuote(s[1..], inQ, "");
      } else {
        TokensHoldNoQuote(s[1..], inQ, b + [s[0]]);
      }
    }
  }

  lemma FieldsCommandSets(e: Fmt, fields: seq<string>)
    requires FieldsCommand(e, fields).Set?
    ensures |fields| >= 3 && FieldsCommand(e, fields).val == ParseTugValue(e, fields[|fields| - 1])
  {
  }

  /** The value a line sets was read from a token without double quotes. */
  lemma SetValueSource(e: Fmt, raw: string) returns (token: string)
    requires ParseLine(e, raw).Set?
    ensures '"' !in token && ParseLine(e, raw).val == ParseTugValue(e, token)
  {
    var code := StripComment(TrimSpace(raw));
    var fields := Tokens(code, false, "").value;
    TokensHoldNoQuote(code, false, "");
    FieldsCommandSets(e, fields);
    token := fields[|fields| - 1];
    assert token in fields;
  }

  lemma StringValue(e: Fmt, raw: string, s: string)
    requires ParseTugValue(e, raw) == Leaf(Str(s))
    ensures s == TrimSpace(raw)
  {
  }

  // ---------------------------------------------------------------- quoting

  lemma {:induction false} HexClean(n: nat, width: nat)
    ensures |Hex(n, width)| == width
    ensures forall i | 0 <= i < width :: var c := Hex(n, width)[i]; c != '"' && !IsSpace(c)
  {
    if width > 0 {
      HexClean(n / 16, width - 1);
    }
  }

  /** A text that starts with a backslash, ends in no white space and holds no double quote. */
  predicate EscapeShape(x: string) {
    |x| > 1 && x[0] == '\\' && !IsSpace(x[|x| - 1]) && '"' !in x
  }

  lemma HexEscapeShape(n: nat)
    ensures EscapeShape(HexEscape(n))
  {
    HexTail("\\x", n, 2);
    HexTail("\\u", n, 4);
    HexTail("\\U", n, 8);
  }

  lemma ControlShape(n: nat)
    requires 7 <= n <= 13
    ensures EscapeShape(['\\', ControlLetter(n)])
  {
    var letters := "abtnvfr";
    assert forall i | 0 <= i < |letters| :: !IsSpace(letters[i]) && letters[i] != '"';
    assert ControlLetter(n) == letters[n - 7];
  }

  /** An escaped character is itself or a longer text; it ends in no white space, and holds a
      double quote only when it is one. */
  lemma EscapeCharShape(e: Fmt, c: char)
    ensures var x := EscapeChar(e, c);
            && |x| >= 1 && (|x| == 1 ==> x == [c])
            && (c != '"' ==> '"' !in x)
            && (|x| > 1 ==> !IsSpace(x[0]) && !IsSpace(x[|x| - 1]))
  {
    var n := c as int;
    HexEscapeShape(n);
    if 7 <= n <= 13 {
      ControlShape(n);
    }
  }

  lemma HexTail(head: string, n: nat, width: nat)
    requires width > 0 && |head| == 2 && head[0] == '\\' && '"' !in head
    ensures EscapeShape(head + Hex(n, width))
  {
    HexClean(n, width);
    var x := head + Hex(n, width);
    assert x[|x| - 1] == Hex(n, width)[width - 1];
  }

  /** Escaping keeps the length only by changing nothing. */
  lemma {:induction false} EscapeLength(e: Fmt, s: string)
    ensures |Escape(e, s)| >= |s|
    ensures |Escape(e, s)| == |s| ==> forall i | 0 <= i < |s| :: EscapeChar(e, s[i]) == [s[i]]
    ensures '"' !in s ==> '"' !in Escape(e, s)
  {
    if s != "" {
      EscapeCharShape(e, s[0]);
      EscapeLength(e, s[1..]);
      assert s == [s[0]] + s[1..];
    }
  }

  lemma {:induction false} EscapeTrimmed(e: Fmt, s: string)
    requires s != ""
    ensures var x := Escape(e, s);
            && x != ""
            && (!IsSpace(s[0]) ==> !IsSpace(x[0]))
            && (!IsSpace(s[|s| - 1]) ==> !IsSpace(x[|x| - 1]))
  {
    EscapeCharShape(e, s[0]);
    if |s| > 1 {
      EscapeTrimmed(e, s[1..]);
    } else {
      assert s[1..] == "";
    }
  }

  // ---------------------------------------------------------------- bare text

  lemma {:induction false} TrimRightTail(a: string, s: string)
    requires TrimRight(s) != ""
    ensures TrimRight(a + s) == a + TrimRight(s)
    decreases |s|
  {
    var n := |s| - 1;
    assert (a + s)[|a + s| - 1] == s[n];
    if IsSpace(s[n]) {
      assert (a + s)[..|a + s| - 1] == a + s[..n];
      TrimRightTail(a, s[..n]);
    }
  }

  lemma {:induction false} TrimRightOfBlank(s: string)
    requires TrimRight(s) == ""
    ensures TrimSpace(s) == ""
    decreases |s|
  {
    TrimLeftCuts(s);
    TrimRightAllSpace(s);
    AllSpaceTrims(s);
  }

  lemma {:induction false} TrimRightAllSpace(s: string)
    requires TrimRight(s) == ""
    ensures forall i | 0 <= i < |s| :: IsSpace(s[i])
    decreases |s|
  {
    if s != "" {
      TrimRightAllSpace(s[..|s| - 1]);
    }
  }

  lemma {:induction false} AllSpaceTrims(s: string)
    requires forall i | 0 <= i < |s| :: IsSpace(s[i])
    ensures TrimLeft(s) == ""
    decreases |s|
  {
    if s != "" {
      AllSpaceTrims(s[1..]);
    }
  }

  /** A bare value is read up to its trailing white space. */
  lemma BareLineParses(e: Fmt, path: seq<string>, s: string)
    requires PathSafe(path) && PlainChars(s) && TrimSpace(s) != ""
    ensures ParseLine(e, SetLine(Join(path, ' '), s)) == Set(path, ParseTugValue(e, TrimRight(s)))
  {
    var body := TrimRight(s);
    if body == "" {
      TrimRightOfBlank(s);
    }
    TrimRightCuts(s);
    var head := "set " + Join(path, ' ') + " ";
    var line := head + body;
    TrimRightTail(head, s);
    assert SetLine(Join(path, ' '), s) == head + s && (head + s)[0] == 's';
    assert TrimSpace(head + s) == line;
    assert line == "set " + Join(path, ' ') + " " + body;
    SetLineTokens(path, body, body);
    SetFields(e, path, body);
  }

  lemma UnquotedIsPlain(s: string)
    requires !NeedsQuote(s)
    ensures PlainChars(s)
  {
  }

  lemma BareReadsBackOnlyIf(e: Fmt, path: seq<string>, s: string)
    requires PathSafe(path) && TrimSpace(s) != "" && !NeedsQuote(s) && '\n' !in s
    requires ParseLine(e, SetLine(Join(path, ' '), s)) == Set(path, Leaf(Str(s)))
    ensures ScalarSafe(e, Str(s))
  {
    UnquotedIsPlain(s);
    BareLineParses(e, path, s);
    StringValue(e, TrimRight(s), s);
    TrimSpaceIsTrimmed(TrimRight(s));
    assert TrimRight(s) == s;
  }

  /** A string read from a token holds no double quote. */
  lemma ReadStringHoldsNoQuote(e: Fmt, raw: string, s: string)
    requires ParseLine(e, raw).Set? && ParseLine(e, raw).val == Leaf(Str(s))
    ensures '"' !in s
  {
    var token := SetValueSource(e, raw);
    StringValue(e, token, s);
    TrimSpaceChars(token);
  }

  lemma QuotedLineParses(e: Fmt, path: seq<string>, s: string)
    requires PathSafe(path) && s != "" && '"' !in s
    ensures ParseLine(e, SetLine(Join(path, ' '), Quote(e, s))) == Set(path, ParseTugValue(e, Escape(e, s)))
  {
    EscapeLength(e, s);
    SetLineParses(e, path, Quote(e, s), Escape(e, s));
  }

  /** Trimming cannot undo what escaping added. */
  lemma TrimmedEscape(e: Fmt, s: string)
    requires s != "" && TrimSpace(Escape(e, s)) == s
    ensures Trimmed(s) && Escape(e, s) == s
  {
    TrimSpaceIsTrimmed(Escape(e, s));
    EscapeTrimmed(e, s);
    TrimSpaceOfTrimmed(Escape(e, s));
  }

  lemma QuotedReadsBackOnlyIf(e: Fmt, path: seq<string>, s: string)
    requires PathSafe(path) && TrimSpace(s) != "" && NeedsQuote(s)
    requires ParseLine(e, SetLine(Join(path, ' '), Quote(e, s))) == Set(path, Leaf(Str(s)))
    ensures Trimmed(s) && Escape(e, s) == s && ParseTugValue(e, s) == Leaf(Str(s))
  {
    ReadStringHoldsNoQuote(e, SetLine(Join(path, ' '), Quote(e, s)), s);
    QuotedLineParses(e, path, s);
    StringValue(e, Escape(e, s), s);
    TrimmedEscape(e, s);
  }

  lemma TrimSpaceChars(s: string)
    ensures forall c | c in TrimSpace(s) :: c in s
  {
    TrimLeftCuts(s);
    TrimRightCuts(TrimLeft(s));
  }

  lemma OneLineRead(e: Fmt, line: string, path: seq<string>, val: Tree)
    ensures LinesRead(e, [line], path, [Op([], val)]) <==> '\n' !in line && ParseLine(e, line) == Set(path, val)
  {
    assert path + [] == path;
    assert LinesRead(e, [line], path, [Op([], val)]) <==> LineRead(e, [line][0], path, [Op([], val)][0]);
  }

  lemma StringReadsBackOnlyIf(e: Fmt, path: seq<string>, s: string)
    requires PathSafe(path) && TrimSpace(s) != ""
    requires var line := SetLine(Join(path, ' '), ScalarText(e, s));
             '\n' !in line && ParseLine(e, line) == Set(path, Leaf(Str(s)))
    ensures ScalarSafe(e, Str(s))
  {
    var line := SetLine(Join(path, ' '), ScalarText(e, s));
    if NeedsQuote(s) {
      QuotedReadsBackOnlyIf(e, path, s);
      EscapeLength(e, s);
      assert line[|line| - |Quote(e, s)|..] == Quote(e, s);
    } else {
      assert line[|line| - |s|..] == s;
      BareReadsBackOnlyIf(e, path, s);
    }
  }

  /** The exact condition: for every path and every string, what is printed reads back as the same
      string at the same path if and only if the string is trimmed and not empty, holds no line
      break, escapes to itself when it needs quotes, and does not read as a list, boolean or number.
      A blank string prints no line at all. */
  lemma StringReadsBackExactly(e: Fmt, path: seq<string>, s: string)
    requires PathSafe(path)
    ensures LinesRead(e, Emit(e, Join(path, ' '), OLeaf(Str(s))), path, [Op([], Leaf(Str(s)))])
       <==> ScalarSafe(e, Str(s))
  {
    if ScalarSafe(e, Str(s)) {
      LeafReads(e, path, Str(s));
    } else if TrimSpace(s) != "" {
      EmitLeaf(e, Join(path, ' '), Str(s));
      OneLineRead(e, SetLine(Join(path, ' '), ScalarText(e, s)), path, Leaf(Str(s)));
      if LinesRead(e, Emit(e, Join(path, ' '), OLeaf(Str(s))), path, [Op([], Leaf(Str(s)))]) {
        StringReadsBackOnlyIf(e, path, s);
      }
    }
  }

  // ---------------------------------------------------------------- lists

  /** Every character of `p` occurs in `s`. */
  predicate Over(p: string, s: string) {
    forall c | c in p :: c in s
  }

  predicate AllOver(parts: seq<string>, s: string) {
    forall i | 0 <= i < |parts| :: Over(parts[i], s)
  }

  lemma {:induction false} SplitOver(s: string, sep: char)
    ensures AllOver(Split(s, sep), s)
    decreases |s|
  {
    var i := IndexOf(s, sep);
    if i < |s| {
      SplitOver(s[i + 1..], sep);
      var rest := Split(s[i + 1..], sep);
      forall k | 0 <= k < |rest| ensures Over(rest[k], s) {
      }
    }
  }

  predicate TrimmedParts(parts: seq<string>) {
    forall i | 0 <= i < |parts| :: parts[i] != "" && Trimmed(parts[i])
  }

  predicate SpaceFree(parts: seq<string>) {
    forall i | 0 <= i < |parts| :: parts[i] != "" && NoSpaces(parts[i])
  }

  predicate NoCommas(parts: seq<string>) {
    forall i | 0 <= i < |parts| :: ',' !in parts[i]
  }

  lemma {:induction false} TrimmedPartsShape(parts: seq<string>, s: string)
    requires AllOver(parts, s) && NoCommas(parts)
    ensures var r := TrimmedNonEmpty(parts); AllOver(r, s) && TrimmedParts(r) && NoCommas(r)
  {
    if parts != [] {
      var rest := parts[1..];
      assert forall i | 0 <= i < |rest| :: rest[i] == parts[i + 1];
      TrimmedPartsShape(rest, s);
      TrimSpaceIsTrimmed(parts[0]);
      TrimSpaceChars(parts[0]);
      var r := TrimmedNonEmpty(rest);
      if TrimSpace(parts[0]) != "" {
        PartsCons(TrimSpace(parts[0]), r, s);
      }
    }
  }

  lemma PartsCons(p: string, rest: seq<string>, s: string)
    requires p != "" && Trimmed(p) && ',' !in p && Over(p, s)
    requires AllOver(rest, s) && TrimmedParts(rest) && NoCommas(rest)
    ensures var r := [p] + rest; AllOver(r, s) && TrimmedParts(r) && NoCommas(r)
  {
  }

  lemma {:induction false} FieldsShape(s: string)
    ensures AllOver(Fields(s), s) && SpaceFree(Fields(s))
    decreases |s|
  {
    TrimLeftCuts(s);
    var t := TrimLeft(s);
    if t != "" {
      var i := SpaceIndex(t);
      FieldsShape(t[i..]);
      var rest := Fields(t[i..]);
      OverMore(rest, t[i..], s);
      assert Over(t[..i], s);
      FieldsCons(t[..i], rest, s);
    }
  }

  lemma OverMore(parts: seq<string>, a: string, b: string)
    requires AllOver(parts, a) && Over(a, b)
    ensures AllOver(parts, b)
  {
  }

  lemma FieldsCons(p: string, rest: seq<string>, s: string)
    requires p != "" && NoSpaces(p) && Over(p, s) && AllOver(rest, s) && SpaceFree(rest)
    ensures AllOver([p] + rest, s) && SpaceFree([p] + rest)
  {
  }

  /** What the items of a bracket list can be. */
  lemma ItemsShape(inner: string)
    ensures var r := ParseItems(inner); AllOver(r, inner) && TrimmedParts(r) && NoCommas(r)
  {
    if ',' in inner {
      SplitOver(inner, ',');
      TrimmedPartsShape(Split(inner, ','), inner);
    } else {
      FieldsShape(inner);
      SpaceFreeIsTrimmed(Fields(inner), inner);
    }
  }

  lemma SpaceFreeIsTrimmed(parts: seq<string>, s: string)
    requires SpaceFree(parts) && AllOver(parts, s) && ',' !in s
    ensures TrimmedParts(parts) && NoCommas(parts)
  {
    forall i | 0 <= i < |parts| ensures parts[i] != "" && Trimmed(parts[i]) && ',' !in parts[i] {
      assert Over(parts[i], s);
    }
  }

  predicate Unblank(t: string) {
    forall c | c in t :: !IsBlank(c)
  }

  /** `t` has no blank, and only characters of `s` or `b`. */
  predicate TokenFrom(t: string, s: string, b: string) {
    forall c | c in t :: !IsBlank(c) && (c in s || c in b)
  }

  predicate TokensFrom(ts: seq<string>, s: string, b: string) {
    forall i | 0 <= i < |ts| :: TokenFrom(ts[i], s, b)
  }

  lemma FromTail(ts: seq<string>, s: string, b: string, b': string)
    requires s != "" && TokensFrom(ts, s[1..], b') && (b' == "" || b' == b + [s[0]])
    ensures TokensFrom(ts, s, b)
  {
    forall i | 0 <= i < |ts| ensures TokenFrom(ts[i], s, b) {
      assert TokenFrom(ts[i], s[1..], b');
      assert s == [s[0]] + s[1..];
    }
  }

  /** Without quotes in the text, tokens hold no blank and nothing that is not in the text. */
  lemma {:induction false} BareTokens(s: string, b: string)
    requires '"' !in s && Unblank(b)
    ensures var r := Tokens(s, false, b); r.Some? ==> TokensFrom(r.value, s, b)
    decreases |s|
  {
    if s != "" {
      var b' := if IsBlank(s[0]) then "" else b + [s[0]];
      var r := Tokens(s[1..], false, b');
      BareTokens(s[1..], b');
      if r.Some? {
        FromTail(r.value, s, b, b');
      }
    }
  }

  lemma {:induction false} CommentCut(s: string)
    requires '"' !in s
    ensures '#' !in s[..UnquotedIndex(s, '#', false)]
    decreases |s|
  {
    if s != "" && s[0] != '#' {
      CommentCut(s[1..]);
      assert s[..UnquotedIndex(s, '#', false)] == [s[0]] + s[1..][..UnquotedIndex(s[1..], '#', false)];
    }
  }

  /** Without quotes in the line, the value it sets comes from a plain token. */
  lemma PlainValueSource(e: Fmt, raw: string) returns (token: string)
    requires ParseLine(e, raw).Set? && '"' !in raw
    ensures PlainChars(token) && ParseLine(e, raw).val == ParseTugValue(e, token)
  {
    var line := TrimSpace(raw);
    var code := StripComment(line);
    TrimSpaceChars(raw);
    CommentCut(line);
    TrimSpaceChars(line[..UnquotedIndex(line, '#', false)]);
    var fields := Tokens(code, false, "").value;
    BareTokens(code, "");
    FieldsCommandSets(e, fields);
    token := fields[|fields| - 1];
    assert TokenFrom(token, code, "");
  }

  /** The items that a value read from a plain token has, if it is a list of strings. */
  lemma ListValue(e: Fmt, token: string, texts: seq<string>)
    requires ParseTugValue(e, token) == StrList(texts)
    ensures AllOver(texts, token) && TrimmedParts(texts) && NoCommas(texts)
  {
    var s := TrimSpace(token);
    TrimSpaceChars(token);
    var inner := TrimSpace(s[1..|s| - 1]);
    TrimSpaceChars(s[1..|s| - 1]);
    if inner != "" {
      ItemsShape(inner);
      var parts := ParseItems(inner);
      assert StrList(parts) == StrList(texts);
      SameTexts(parts, texts);
      OverMore(parts, inner, token);
    }
  }

  lemma SameTexts(a: seq<string>, b: seq<string>)
    requires StrList(a) == StrList(b)
    ensures a == b
  {
    assert |a| == |StrList(a).items| == |StrList(b).items| == |b|;
    forall i | 0 <= i < |a| ensures a[i] == b[i] {
      assert StrList(a).items[i] == Leaf(Str(a[i])) && StrList(b).items[i] == Leaf(Str(b[i]));
    }
  }

  lemma {:induction false} JoinHas(texts: seq<string>, i: nat)
    requires i < |texts|
    ensures Over(texts[i], Join(texts, ','))
  {
    if |texts| > 1 && i > 0 {
      JoinHas(texts[1..], i - 1);
    }
  }

  lemma {:induction false} JoinNoQuote(texts: seq<string>, sep: char)
    requires sep != '"' && forall i | 0 <= i < |texts| :: '"' !in texts[i]
    ensures '"' !in Join(texts, sep)
  {
    if |texts| > 1 {
      JoinNoQuote(texts[1..], sep);
    }
  }

  /** A single item is split on white space. */
  lemma OneItem(e: Fmt, path: seq<string>, t: string)
    requires PathSafe(path) && ItemText(t)
    requires ParseLine(e, SetLine(Join(path, ' '), "[" + t + "]")) == Set(path, StrList([t]))
    ensures NoSpaces(t)
  {
    BracketShape(t);
    BracketText(t);
    BracketedValue(e, "[" + t + "]", t);
    SetLineReads(e, path, "[" + t + "]", "[" + t + "]");
    SameTexts(Fields(t), [t]);
    FieldsShape(t);
    assert Fields(t)[0] == t;
  }

  function ListLine(path: seq<string>, texts: seq<string>): string {
    SetLine(Join(path, ' '), "[" + Join(texts, ',') + "]")
  }

  lemma ItemsNoQuote(texts: seq<string>, token: string)
    requires AllOver(texts, token) && '"' !in token
    ensures forall i | 0 <= i < |texts| :: '"' !in texts[i]
  {
    forall i | 0 <= i < |texts| ensures '"' !in texts[i] {
      assert Over(texts[i], token);
    }
  }

  /** The line holds no quote, since no item can. */
  lemma ListLineHasNoQuote(e: Fmt, path: seq<string>, texts: seq<string>)
    requires PathSafe(path) && ParseLine(e, ListLine(path, texts)) == Set(path, StrList(texts))
    ensures '"' !in ListLine(path, texts)
  {
    var token := SetValueSource(e, ListLine(path, texts));
    ListValue(e, token, texts);
    ItemsNoQuote(texts, token);
    QuoteFreeLine(path, texts);
  }

  lemma QuoteFreeLine(path: seq<string>, texts: seq<string>)
    requires PathSafe(path) && forall i | 0 <= i < |texts| :: '"' !in texts[i]
    ensures '"' !in ListLine(path, texts)
  {
    JoinNoQuote(texts, ',');
    JoinNoQuote(path, ' ');
  }

  lemma ItemsOfLine(path: seq<string>, texts: seq<string>, token: string, i: nat)
    requires AllOver(texts, token) && TrimmedParts(texts) && NoCommas(texts) && PlainChars(token)
    requires i < |texts| && '\n' !in ListLine(path, texts)
    ensures ItemText(texts[i])
  {
    JoinHas(texts, i);
    assert Over(texts[i], token) && Over(texts[i], Join(texts, ','));
    assert Over(Join(texts, ','), ListLine(path, texts));
    OverPlain(texts[i], token);
  }

  lemma OverPlain(p: string, s: string)
    requires Over(p, s) && PlainChars(s)
    ensures PlainChars(p)
  {
    forall i | 0 <= i < |p| ensures p[i] != '"' && p[i] != '#' && !IsBlank(p[i]) {
      assert p[i] in s;
    }
  }

  lemma ListReadsBackOnlyIf(e: Fmt, path: seq<string>, texts: seq<string>)
    requires PathSafe(path) && texts != [] && '\n' !in ListLine(path, texts)
    requires ParseLine(e, ListLine(path, texts)) == Set(path, StrList(texts))
    ensures ListTexts(texts)
  {
    ListLineHasNoQuote(e, path, texts);
    var token := PlainValueSource(e, ListLine(path, texts));
    ListValue(e, token, texts);
    forall i | 0 <= i < |texts| ensures ItemText(texts[i]) {
      ItemsOfLine(path, texts, token, i);
    }
    if |texts| == 1 {
      assert texts == [texts[0]];
      OneItem(e, path, texts[0]);
    }
  }

  /** The exact condition for a list that is printed on one line: it reads back iff its items are
      strings, trimmed and not empty, without quote, comment sign, blank, comma or line break, and a
      single item has no white space inside. A list of maps is printed entry by entry, and an empty
      list prints nothing. */
  lemma ListReadsBackExactly(e: Fmt, path: seq<string>, items: seq<OTree>)
    requires PathSafe(path) && !AllMaps(items)
    ensures LinesRead(e, Emit(e, Join(path, ' '), OList(items)), path, [Op([], View(OList(items)))])
       <==> ListSafe(View(OList(items)).items)
  {
    if ListSafe(View(OList(items)).items) {
      ListReads(e, path, items);
    } else {
      var texts := SprintAll(e, items);
      EmitScalarList(e, Join(path, ' '), items);
      OneLineRead(e, ListLine(path, texts), path, View(OList(items)));
      if LinesRead(e, Emit(e, Join(path, ' '), OList(items)), path, [Op([], View(OList(items)))]) {
        ReadListIsStrings(e, path, items);
        ListReadsBackOnlyIf(e, path, texts);
        ListIsSafe(e, items);
      }
    }
  }

  /** Only lists of strings are read. */
  lemma ReadListIsStrings(e: Fmt, path: seq<string>, items: seq<OTree>)
    requires ParseLine(e, ListLine(path, SprintAll(e, items))) == Set(path, View(OList(items)))
    ensures forall i | 0 <= i < |items| :: View(items[i]).Leaf? && View(items[i]).v.Str?
    ensures StrList(SprintAll(e, items)) == View(OList(items))
  {
    var token := SetValueSource(e, ListLine(path, SprintAll(e, items)));
    var its := View(OList(items)).items;
    assert forall i | 0 <= i < |its| :: its[i].Leaf? && its[i].v.Str?;
    assert forall i | 0 <= i < |its| :: its[i] == View(items[i]);
  }

  lemma ListIsSafe(e: Fmt, items: seq<OTree>)
    requires ListTexts(SprintAll(e, items)) && StrList(SprintAll(e, items)) == View(OList(items))
    ensures ListSafe(View(OList(items)).items)
  {
  }

  /** An empty list prints nothing, whatever its path. */
  lemma EmptyListIsLost(e: Fmt, k: string)
    ensures Emit(e, "", OMap([Field(k, OList([]))])) == []
    ensures ApplySource(e, map[], SetLinesText([])) == Ok(map[])
  {
    var f := Field(k, OList([]));
    assert EmitFields(e, "", [f]) == Emit(e, Under("", k), OList([])) + EmitFields(e, "", [f][1..]);
    TextApplies(e, [], map[]);
  }

  // ---------------------------------------------------------------- integers and booleans

  predicate NumberChars(s: string) {
    s != "" && forall i | 0 <= i < |s| :: IsDigit(s[i]) || s[i] == '-'
  }

  lemma FormatIntChars(n: int)
    ensures NumberChars(FormatInt(n))
  {
    DigitsRoundTrip(if n < 0 then -n else n);
  }

  lemma NumberTextShape(s: string)
    requires NumberChars(s)
    ensures Trimmed(s) && !NeedsQuote(s) && '\n' !in s && TrimSpace(s) == s
  {
    TrimSpaceOfTrimmed(s);
  }

  lemma NumberIsNoWord(s: string)
    requires NumberChars(s)
    ensures !Bracketed(s) && s != "true" && s != "false"
  {
    assert s[0] != 't' && s[0] != 'f';
  }

  function InRange64(n: int): Option<int> {
    if MIN_INT64 <= n <= MAX_INT64 then Some(n) else None
  }

  lemma ParsePlain(s: string)
    requires AllDigits(s)
    ensures ParseInt(s) == InRange64(DigitsValue(s))
  {
    assert IsDigit(s[0]);
  }

  lemma ParseMinus(s: string)
    requires AllDigits(s)
    ensures ParseInt("-" + s) == InRange64(-(DigitsValue(s) as int))
  {
    assert ("-" + s)[1..] == s;
  }

  lemma FormatIntParses(n: int)
    ensures ParseInt(FormatInt(n)) == InRange64(n)
  {
    if n < 0 {
      DigitsRoundTrip(-n);
      ParseMinus(Digits(-n));
    } else {
      DigitsRoundTrip(n);
      ParsePlain(Digits(n));
    }
  }

  lemma NumberValue(e: Fmt, s: string)
    requires NumberChars(s)
    ensures ParseInt(s).Some? ==> ParseTugValue(e, s) == Leaf(Int(ParseInt(s).value))
    ensures ParseInt(s).None? ==> !ParseTugValue(e, s).Leaf? || !ParseTugValue(e, s).v.Int?
  {
    NumberTextShape(s);
    NumberIsNoWord(s);
  }

  lemma IntIsSafe(e: Fmt, n: int)
    ensures ScalarSafe(e, Int(n)) <==> MIN_INT64 <= n <= MAX_INT64
    ensures ParseTugValue(e, FormatInt(n)) == Leaf(Int(n)) <==> MIN_INT64 <= n <= MAX_INT64
    ensures FormatInt(n) != "" && Trimmed(FormatInt(n)) && !NeedsQuote(FormatInt(n)) && '\n' !in FormatInt(n)
  {
    FormatIntChars(n);
    FormatIntParses(n);
    NumberTextShape(FormatInt(n));
    NumberValue(e, FormatInt(n));
  }

  /** A text that needs no quotes is read as its own value. */
  lemma BareLineReads(e: Fmt, path: seq<string>, v: Scalar)
    requires PathSafe(path)
    requires var s := SprintScalar(e, v); s != "" && Trimmed(s) && !NeedsQuote(s) && '\n' !in s
    ensures LinesRead(e, Emit(e, Join(path, ' '), OLeaf(v)), path, [Op([], Leaf(v))])
       <==> ParseTugValue(e, SprintScalar(e, v)) == Leaf(v)
  {
    var s := SprintScalar(e, v);
    TrimSpaceOfTrimmed(s);
    EmitLeaf(e, Join(path, ' '), v);
    QuotedTextIsField(e, s);
    SetLineReads(e, path, s, s);
    SetLineNoNewline(path, s);
    OneLineRead(e, SetLine(Join(path, ' '), s), path, Leaf(v));
  }

  /** For every path and every integer: what is printed reads back as the same integer at the same
      path iff it fits 64 signed bits. */
  lemma IntReadsBackExactly(e: Fmt, path: seq<string>, n: int)
    requires PathSafe(path)
    ensures LinesRead(e, Emit(e, Join(path, ' '), OLeaf(Int(n))), path, [Op([], Leaf(Int(n)))])
       <==> MIN_INT64 <= n <= MAX_INT64
  {
    IntIsSafe(e, n);
    BareLineReads(e, path, Int(n));
  }

  lemma BoolReadsBack(e: Fmt, path: seq<string>, b: bool)
    requires PathSafe(path)
    ensures LinesRead(e, Emit(e, Join(path, ' '), OLeaf(Bool(b))), path, [Op([], Leaf(Bool(b)))])
  {
    var s := SprintScalar(e, Bool(b));
    WordShape(s);
    TrimSpaceOfTrimmed(s);
    LeafReads(e, path, Bool(b));
  }

  lemma WordShape(s: string)
    requires s == "true" || s == "false"
    ensures Trimmed(s) && !NeedsQuote(s) && '\n' !in s && !Bracketed(s)
  {
  }

  /** An empty map prints nothing, so it is lost. */
  lemma EmptyMapIsLost(e: Fmt, k: string)
    ensures Emit(e, "", OMap([Field(k, OMap([]))])) == []
    ensures ApplySource(e, map[], SetLinesText([])) == Ok(map[])
  {
    var f := Field(k, OMap([]));
    assert EmitFields(e, "", [f]) == Emit(e, Under("", k), OMap([])) + EmitFields(e, "", [f][1..]);
    TextApplies(e, [], map[]);
  }

  // ---------------------------------------------------------------- other lists of maps

  /** A name under which a list of maps has no command of its own. */
  predicate OtherList(prefix: string) {
    !HasSuffix(prefix, "pops") && !HasSuffix(prefix, "products") && !Contains(prefix, "barges")
  }

  lemma OtherEntryHead(path: seq<string>, key: string, f: string)
    requires path != [] && OtherList(Join(path, ' '))
    ensures EntryHead(Join(path, ' '), key) + " " + f == Join(path + [key, f], ' ')
  {
    JoinSnoc(path, key, ' ');
    JoinSnoc(path + [key], f, ' ');
    assert path + [key] + [f] == path + [key, f];
  }

  lemma EmitNamed(e: Fmt, prefix: string, key: string, f: string, v: Scalar)
    requires key != "" && f != "id"
    ensures EmitItem(e, prefix, [Field("id", OLeaf(Str(key))), Field(f, OLeaf(v))])
         == Emit(e, EntryHead(prefix, key) + " " + f, OLeaf(v))
  {
    var fields := [Field("id", OLeaf(Str(key))), Field(f, OLeaf(v))];
    var head := EntryHead(prefix, key);
    assert KeyIndex(fields) == 0;
    assert Sprint(e, View(fields[0].val)) == key;
    assert fields[1..] == [fields[1]] && fields[1..][1..] == [];
    assert EmitChildren(e, head, [], "id") == [];
    assert EmitChildren(e, head, fields[1..], "id") == Emit(e, head + " " + f, OLeaf(v)) + [];
  }

  /** An entry of any other list is printed below its id: it reads back as a map under that name,
      where the list was. */
  lemma OtherListReadsAsMap(e: Fmt, path: seq<string>, key: string, f: string, v: Scalar)
    requires path != [] && OtherList(Join(path, ' '))
    requires PathSafe(path + [key, f]) && ScalarSafe(e, v) && f != "id"
    ensures LinesRead(e, EmitItem(e, Join(path, ' '), [Field("id", OLeaf(Str(key))), Field(f, OLeaf(v))]),
                      [], [Op(path + [key, f], Leaf(v))])
  {
    var at := path + [key, f];
    assert at[|path|] == key;
    EmitNamed(e, Join(path, ' '), key, f, v);
    OtherEntryHead(path, key, f);
    LeafReads(e, at, v);
    assert at + [] == at && [] + at == at;
  }
}
