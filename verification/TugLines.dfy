/** Whole command lines: what each of them does to the tree, in any letter case, with comments. */
module TugLines {
  import opened Text
  import opened TugTree
  import opened TugSyntax
  import opened TugCommands

  /** Tokens that one line can carry as they are. */
  predicate LineTokens(tokens: seq<string>) {
    && tokens != [] && PlainTokens(tokens)
    && Trimmed(Join(tokens, ' ')) && '\n' !in Join(tokens, ' ')
  }

  // ---------------------------------------------------------------- reading a line of plain tokens

  lemma {:induction false} TokensOfLine(ts: seq<string>)
    requires ts != [] && PlainTokens(ts)
    ensures Tokens(Join(ts, ' '), false, "") == Some(ts) && Join(ts, ' ') != ""
    decreases |ts|
  {
    var t := ts[0];
    if |ts| == 1 {
      TokensPlain(t, "", "");
      assert t + "" == t && "" + t == t && ts == [t];
    } else {
      var tail := Join(ts[1..], ' ');
      TokensOfLine(ts[1..]);
      assert Join(ts, ' ') == t + (" " + tail);
      TokensPlain(t, " " + tail, "");
      assert (" " + tail)[1..] == tail;
      assert "" + t == t && ts == [t] + ts[1..];
    }
  }

  lemma {:induction false} FirstChar(ts: seq<string>)
    requires ts != [] && PlainTokens(ts)
    ensures Join(ts, ' ') != "" && Join(ts, ' ')[0] == ts[0][0]
  {
  }

  lemma LineReads(e: Fmt, tokens: seq<string>)
    requires LineTokens(tokens)
    ensures ParseLine(e, Join(tokens, ' ')) == FieldsCommand(e, tokens)
  {
    var line := Join(tokens, ' ');
    TokensOfLine(tokens);
    FirstChar(tokens);
    JoinedPlain(tokens);
    NoCommentPlain(line, "");
    assert line + "" == line;
    TrimSpaceOfTrimmed(line);
  }

  // ---------------------------------------------------------------- what each command does

  const NO_OPS := ["show", "commit", "edit", "top", "up", "rollback"]

  /** The words that start a line, in lower case. */
  predicate IsCommand(word: string) {
    word == "set" || word == "delete" || word == "load" || word in NO_OPS
  }

  lemma OneLine(e: Fmt, m: TreeMap, line: string)
    requires '\n' !in line
    ensures ApplySource(e, m, line) == Exec(e, m, ParseLine(e, line))
  {
    SplitJoin([line], '\n');
    assert Join([line], '\n') == line;
    assert ApplyLines(e, m, [line]) ==
           (var r := Exec(e, m, ParseLine(e, line)); if r.Err? then r else ApplyLines(e, r.tree, [line][1..]));
  }

  lemma SourceOfLine(e: Fmt, m: TreeMap, tokens: seq<string>)
    requires LineTokens(tokens)
    ensures ApplySource(e, m, Join(tokens, ' ')) == Exec(e, m, FieldsCommand(e, tokens))
  {
    LineReads(e, tokens);
    OneLine(e, m, Join(tokens, ' '));
  }

  lemma FieldsSet(e: Fmt, fields: seq<string>, word: string)
    requires fields != [] && word == ToLower(fields[0]) && word == "set"
    ensures var n := |fields|;
            FieldsCommand(e, fields) ==
            if n < 3 then Bad(SetNeedsValue) else Set(fields[1..n - 1], ParseTugValue(e, fields[n - 1]))
  {
  }

  lemma FieldsDelete(e: Fmt, fields: seq<string>, word: string)
    requires fields != [] && word == ToLower(fields[0]) && word == "delete"
    ensures FieldsCommand(e, fields) == if |fields| < 2 then Bad(DeleteNeedsPath) else Delete(fields[1..])
  {
  }

  lemma LineIs(e: Fmt, m: TreeMap, tokens: seq<string>, c: Command)
    requires LineTokens(tokens) && FieldsCommand(e, tokens) == c
    ensures ParseLine(e, Join(tokens, ' ')) == c && ApplySource(e, m, Join(tokens, ' ')) == Exec(e, m, c)
  {
    LineReads(e, tokens);
    SourceOfLine(e, m, tokens);
  }

  /** A `set` line stores its last token's value at the path of the others; it needs both. */
  lemma SetCommand(e: Fmt, m: TreeMap, tokens: seq<string>)
    requires LineTokens(tokens) && ToLower(tokens[0]) == "set"
    ensures var n := |tokens|;
            ApplySource(e, m, Join(tokens, ' ')) ==
            if n < 3 then Err(SetNeedsValue) else TreeSet(e, m, tokens[1..n - 1], ParseTugValue(e, tokens[n - 1]))
  {
    var n := |tokens|;
    FieldsSet(e, tokens, ToLower(tokens[0]));
    LineIs(e, m, tokens, if n < 3 then Bad(SetNeedsValue) else Set(tokens[1..n - 1], ParseTugValue(e, tokens[n - 1])));
  }

  /** A `delete` line deletes at the path of its tokens; it needs one. */
  lemma DeleteCommand(e: Fmt, m: TreeMap, tokens: seq<string>)
    requires LineTokens(tokens) && ToLower(tokens[0]) == "delete"
    ensures ParseLine(e, Join(tokens, ' ')) == if |tokens| < 2 then Bad(DeleteNeedsPath) else Delete(tokens[1..])
    ensures ApplySource(e, m, Join(tokens, ' ')) ==
            if |tokens| < 2 then Err(DeleteNeedsPath) else TreeDelete(e, m, tokens[1..])
  {
    FieldsDelete(e, tokens, ToLower(tokens[0]));
    LineIs(e, m, tokens, if |tokens| < 2 then Bad(DeleteNeedsPath) else Delete(tokens[1..]));
  }

  lemma FieldsQuiet(e: Fmt, fields: seq<string>, word: string)
    requires fields != [] && word == ToLower(fields[0])
    requires word == "show" || word == "commit" || word == "edit" || word == "top" || word == "up" || word == "rollback"
    ensures FieldsCommand(e, fields) == Skip
  {
  }

  lemma FieldsLoad(e: Fmt, fields: seq<string>, word: string)
    requires fields != [] && word == ToLower(fields[0]) && word == "load"
    ensures FieldsCommand(e, fields) ==
            if |fields| < 3 then Bad(LoadNeedsFile) else Load(ToLower(fields[1]), fields[2])
  {
  }

  lemma LoadFails(e: Fmt, m: TreeMap, fields: seq<string>)
    requires fields != [] && ToLower(fields[0]) == "load"
    ensures Exec(e, m, FieldsCommand(e, fields)) == Err(if |fields| < 3 then LoadNeedsFile else LoadReadsFile)
  {
    var word := ToLower(fields[0]);
    FieldsLoad(e, fields, word);
  }

  lemma FieldsUnknown(e: Fmt, fields: seq<string>, word: string)
    requires fields != [] && word == ToLower(fields[0]) && !IsCommand(word)
    ensures FieldsCommand(e, fields) == Bad(UnknownCommand)
  {
    assert "show" in NO_OPS && "commit" in NO_OPS && "edit" in NO_OPS;
    assert "top" in NO_OPS && "up" in NO_OPS && "rollback" in NO_OPS;
  }

  /** Six words do nothing. */
  lemma QuietCommand(e: Fmt, m: TreeMap, tokens: seq<string>)
    requires LineTokens(tokens) && ToLower(tokens[0]) in NO_OPS
    ensures ApplySource(e, m, Join(tokens, ' ')) == Ok(m)
  {
    FieldsQuiet(e, tokens, ToLower(tokens[0]));
    LineIs(e, m, tokens, Skip);
  }

  /** `load` needs a mode and a file, which the model does not read. */
  lemma LoadCommand(e: Fmt, m: TreeMap, tokens: seq<string>)
    requires LineTokens(tokens) && ToLower(tokens[0]) == "load"
    ensures ApplySource(e, m, Join(tokens, ' ')) == Err(if |tokens| < 3 then LoadNeedsFile else LoadReadsFile)
  {
    LoadFails(e, m, tokens);
    SourceOfLine(e, m, tokens);
  }

  /** Any other word is an error. */
  lemma UnknownLine(e: Fmt, m: TreeMap, tokens: seq<string>)
    requires LineTokens(tokens) && !IsCommand(ToLower(tokens[0]))
    ensures ApplySource(e, m, Join(tokens, ' ')) == Err(UnknownCommand)
  {
    FieldsUnknown(e, tokens, ToLower(tokens[0]));
    LineIs(e, m, tokens, Bad(UnknownCommand));
  }

  // ---------------------------------------------------------------- comments and blank lines

  lemma CommentTrims(code: string, comment: string)
    requires code != "" && !IsSpace(code[0])
    ensures TrimSpace(code + " #" + comment) == (code + " ") + ("#" + TrimRight(comment))
  {
    var head := code + " #";
    assert head[0] == code[0] && head[|head| - 1] == '#';
    TrimSpaceKeeps(head, comment);
    Regroup(code, TrimRight(comment));
  }

  lemma Regroup(code: string, rest: string)
    ensures code + " #" + rest == (code + " ") + ("#" + rest)
  {
    assert " #" == " " + "#";
  }

  lemma CommentStrips(code: string, rest: string)
    requires forall i | 0 <= i < |code| :: code[i] != '"' && code[i] != '#'
    requires code != "" && Trimmed(code)
    ensures StripComment((code + " ") + ("#" + rest)) == code && StripComment(code) == code
  {
    var line := (code + " ") + ("#" + rest);
    NoCommentPlain(code + " ", "#" + rest);
    assert line[..|code| + 1] == code + " ";
    TrimSpaceOfTrimmed(code);
    TrimRightKeeps(code, " ");
    assert TrimRight(" ") == TrimRight("") == "";
    assert code + "" == code;
    NoCommentPlain(code, "");
  }

  /** What follows a comment sign outside quotes does not matter. */
  lemma CommentIsIgnored(e: Fmt, tokens: seq<string>, comment: string)
    requires LineTokens(tokens)
    ensures ParseLine(e, Join(tokens, ' ') + " #" + comment) == ParseLine(e, Join(tokens, ' '))
  {
    var code := Join(tokens, ' ');
    FirstChar(tokens);
    JoinedPlain(tokens);
    CommentTrims(code, comment);
    CommentStrips(code, TrimRight(comment));
    TrimSpaceOfTrimmed(code);
  }

  /** Blank lines and comment lines do nothing. */
  lemma QuietLines(e: Fmt, comment: string)
    ensures ParseLine(e, "") == Skip && ParseLine(e, "#" + comment) == Skip
  {
    TrimRightKeeps("#", comment);
    assert ("#" + comment)[0] == '#';
    assert TrimSpace("#" + comment) == "#" + TrimRight(comment);
  }

  /** Indentation does not matter. */
  lemma IndentIsIgnored(e: Fmt, lead: string, line: string)
    requires AllSpace(lead)
    ensures ParseLine(e, lead + line) == ParseLine(e, line)
  {
    TrimLeftSkips(lead, line);
  }

  // ---------------------------------------------------------------- set, then delete

  /** A source that sets a value and then deletes the same path: it always runs; nothing is left at the
      path iff the path is deletable; and then the tree is as before iff the place was fresh. */
  lemma SetThenDelete(e: Fmt, m: TreeMap, set_: string, delete: string, path: seq<string>, text: string)
    requires ToLower(set_) == "set" && ToLower(delete) == "delete" && path != []
    requires LineTokens([set_] + path + [text]) && LineTokens([delete] + path)
    requires TreeSet(e, m, path, ParseTugValue(e, text)).Ok? && !Renames(NormalizePath(path))
    ensures var r := ApplySource(e, m, Join([set_] + path + [text], ' ') + "\n" + Join([delete] + path, ' '));
            && r.Ok?
            && (Lookup(e, r.tree, NormalizePath(path)) == None <==> Deletable(NormalizePath(path)))
            && (Deletable(NormalizePath(path)) ==> (r == Ok(m) <==> FreshPlace(e, m, NormalizePath(path))))
  {
    var sets, deletes := [set_] + path + [text], [delete] + path;
    var val := ParseTugValue(e, text);
    var t := TreeSet(e, m, path, val).tree;
    TwoLines(e, m, Join(sets, ' '), Join(deletes, ' '));
    assert sets[1..|sets| - 1] == path && deletes[1..] == path;
    SetCommand(e, m, sets);
    DeleteCommand(e, t, deletes);
    DeleteAfterSet(e, m, path, val);
    if Deletable(NormalizePath(path)) {
      DeleteUndoesSetExactly(e, m, path, val);
    }
  }

  lemma TwoLines(e: Fmt, m: TreeMap, a: string, b: string)
    requires '\n' !in a && '\n' !in b
    ensures var r := ApplySource(e, m, a);
            ApplySource(e, m, a + "\n" + b) == if r.Err? then r else ApplySource(e, r.tree, b)
  {
    SplitJoin([a, b], '\n');
    assert Join([a, b], '\n') == a + ['\n'] + b by {
      assert [a, b][1..] == [b];
    }
    assert a + "\n" + b == a + ['\n'] + b;
    assert [a, b] == [a] + [b];
    ApplyLinesConcat(e, m, [a], [b]);
    SplitJoin([a], '\n');
    SplitJoin([b], '\n');
  }
}
