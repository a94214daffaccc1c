/** Printing a configuration tree and reading the lines back rebuilds the tree. */
module TugRoundTrip {
  import opened Text
  import opened TugTree
  import opened TugSyntax
  import opened TugPrint
  import opened TugRebuild

  // ---------------------------------------------------------------- the printable fragment

  /** A key that survives as one path token. */
  predicate TokenSafe(k: string) {
    k != "" && PlainChars(k) && '\n' !in k && NormalizeKey(k) == k
  }

  predicate ScalarSafe(e: Fmt, v: Scalar) {
    var s := SprintScalar(e, v);
    && s != "" && Trimmed(s) && '\n' !in s
    && (NeedsQuote(s) ==> forall i | 0 <= i < |s| :: EscapeChar(e, s[i]) == [s[i]])
    && ParseTugValue(e, s) == Leaf(v)
  }

  predicate ItemText(s: string) {
    s != "" && Trimmed(s) && PlainChars(s) && ',' !in s && '\n' !in s
  }

  predicate NoSpaces(s: string) {
    forall i | 0 <= i < |s| :: !IsSpace(s[i])
  }

  /** A bracket list without a comma is split on white space. */
  predicate ListSafe(items: seq<Tree>) {
    && items != []
    && (forall i | 0 <= i < |items| :: items[i].Leaf? && items[i].v.Str? && ItemText(items[i].v.s))
    && (|items| == 1 ==> NoSpaces(items[0].v.s))
  }

  /** Trees printed as plain nested paths. */
  predicate Plain(e: Fmt, t: Tree) {
    match t
    case Nil => false
    case Leaf(v) => ScalarSafe(e, v)
    case List(items) => ListSafe(items)
    case Map(m) =>
      && m != map[]
      && forall k | k in m :: TokenSafe(k) && (k == "roles" ==> !m[k].Leaf?) && Plain(e, m[k])
  }

  predicate PlainMap(e: Fmt, m: TreeMap) {
    forall k | k in m :: TokenSafe(k) && (k == "roles" ==> !m[k].Leaf?) && Plain(e, m[k])
  }

  /** An entry of a keyed list: its key as a string, and at least one other field. */
  predicate EntrySafe(e: Fmt, t: Tree, keyField: string) {
    && t.Map? && keyField in t.m
    && t.m[keyField].Leaf? && t.m[keyField].v.Str? && TokenSafe(t.m[keyField].v.s)
    && (keyField == "name" ==> "id" !in t.m)
    && t.m - {keyField} != map[] && PlainMap(e, t.m - {keyField})
  }

  predicate KeyedSafe(e: Fmt, items: seq<Tree>, keyField: string) {
    && items != []
    && (forall i | 0 <= i < |items| :: EntrySafe(e, items[i], keyField))
    && forall i, j | 0 <= i < j < |items| ::
         !EqualFold(items[i].m[keyField].v.s, items[j].m[keyField].v.s)
  }

  predicate StackFieldSafe(e: Fmt, k: string, t: Tree) {
    && TokenSafe(k) && (k == "roles" ==> !t.Leaf?)
    && (k == "barge" || k == "product" ==> !t.Map?)
    && (Plain(e, t) || (k == "barges" && t.List? && KeyedSafe(e, t.items, "name")))
  }

  predicate SiteFieldSafe(e: Fmt, k: string, t: Tree) {
    && TokenSafe(k) && (k == "roles" ==> !t.Leaf?) && (k == "pop" ==> !t.Map?)
    && if k == "stack" && t.Map? then t.m != map[] && forall j | j in t.m :: StackFieldSafe(e, j, t.m[j])
       else Plain(e, t) || (k == "pops" && t.List? && KeyedSafe(e, t.items, "id"))
  }

  predicate Printable(e: Fmt, m: TreeMap) {
    forall k | k in m :: SiteFieldSafe(e, k, m[k])
  }


  // ---------------------------------------------------------------- reading printed lines

  predicate PathSafe(path: seq<string>) {
    path != [] && forall i | 0 <= i < |path| :: path[i] != "" && PlainChars(path[i]) && '\n' !in path[i]
  }

  /** Line by line, the text parses to the updates below `path`. */
  predicate LinesRead(e: Fmt, lines: seq<string>, path: seq<string>, ops: seq<Op>) {
    |lines| == |ops| && forall i | 0 <= i < |lines| :: LineRead(e, lines[i], path, ops[i])
  }

  predicate LineRead(e: Fmt, line: string, path: seq<string>, op: Op) {
    '\n' !in line && ParseLine(e, line) == Set(path + op.path, op.val)
  }

  /** No line contains a line break. */
  predicate Clean(lines: seq<string>) {
    forall i | 0 <= i < |lines| :: '\n' !in lines[i]
  }

  lemma ReadIsClean(e: Fmt, lines: seq<string>, path: seq<string>, ops: seq<Op>)
    requires LinesRead(e, lines, path, ops)
    ensures Clean(lines)
  {
    forall i | 0 <= i < |lines| ensures '\n' !in lines[i] {
      assert LineRead(e, lines[i], path, ops[i]);
    }
  }

  lemma {:induction false} JoinNoNewline(path: seq<string>)
    requires forall i | 0 <= i < |path| :: '\n' !in path[i]
    ensures '\n' !in Join(path, ' ')
  {
    if |path| > 1 {
      JoinNoNewline(path[1..]);
    }
  }

  lemma {:induction false} EscapeIdentity(e: Fmt, s: string)
    requires forall i | 0 <= i < |s| :: EscapeChar(e, s[i]) == [s[i]]
    ensures Escape(e, s) == s && '"' !in s
  {
    if s != "" {
      EscapeIdentity(e, s[1..]);
      assert s == [s[0]] + s[1..];
      assert EscapeChar(e, '"') == ['\\', '"'];
    }
  }

  lemma QuotedTextIsField(e: Fmt, s: string)
    requires s != "" && Trimmed(s) && '\n' !in s
    requires NeedsQuote(s) ==> forall i | 0 <= i < |s| :: EscapeChar(e, s[i]) == [s[i]]
    ensures ValueText(ScalarText(e, s), s) && Trimmed(ScalarText(e, s)) && '\n' !in ScalarText(e, s)
  {
    if NeedsQuote(s) {
      EscapeIdentity(e, s);
    }
  }

  lemma SetLineNoNewline(path: seq<string>, text: string)
    requires PathSafe(path) && '\n' !in text
    ensures '\n' !in SetLine(Join(path, ' '), text)
  {
    JoinNoNewline(path);
  }

  lemma SetLineReads(e: Fmt, path: seq<string>, text: string, body: string)
    requires PathSafe(path) && ValueText(text, body) && Trimmed(text) && body != ""
    ensures ParseLine(e, SetLine(Join(path, ' '), text)) == Set(path, ParseTugValue(e, body))
  {
    SetLineParses(e, path, text, body);
  }

  lemma OneLineReads(e: Fmt, line: string, path: seq<string>, val: Tree)
    requires '\n' !in line && ParseLine(e, line) == Set(path, val)
    ensures LinesRead(e, [line], path, [Op([], val)])
  {
    assert path + [] == path;
  }

  lemma EmitLeaf(e: Fmt, prefix: string, v: Scalar)
    requires TrimSpace(SprintScalar(e, v)) != ""
    ensures Emit(e, prefix, OLeaf(v)) == [SetLine(prefix, ScalarText(e, SprintScalar(e, v)))]
  {
  }

  lemma SafeTextIsPrinted(e: Fmt, v: Scalar)
    requires ScalarSafe(e, v)
    ensures TrimSpace(SprintScalar(e, v)) != ""
  {
    TrimSpaceOfTrimmed(SprintScalar(e, v));
  }

  lemma LeafLineReads(e: Fmt, path: seq<string>, v: Scalar)
    requires PathSafe(path) && ScalarSafe(e, v)
    ensures LinesRead(e, [SetLine(Join(path, ' '), ScalarText(e, SprintScalar(e, v)))], path, [Op([], Leaf(v))])
  {
    var s := SprintScalar(e, v);
    var text := ScalarText(e, s);
    QuotedTextIsField(e, s);
    SetLineNoNewline(path, text);
    SetLineReads(e, path, text, s);
    OneLineReads(e, SetLine(Join(path, ' '), text), path, Leaf(v));
  }

  lemma LeafReads(e: Fmt, path: seq<string>, v: Scalar)
    requires PathSafe(path) && ScalarSafe(e, v)
    ensures LinesRead(e, Emit(e, Join(path, ' '), OLeaf(v)), path, [Op([], Leaf(v))])
  {
    SafeTextIsPrinted(e, v);
    EmitLeaf(e, Join(path, ' '), v);
    LeafLineReads(e, path, v);
  }

  // ---------------------------------------------------------------- lists

  predicate ItemTexts(texts: seq<string>) {
    forall i | 0 <= i < |texts| :: ItemText(texts[i])
  }

  predicate ListTexts(texts: seq<string>) {
    texts != [] && ItemTexts(texts) && (|texts| == 1 ==> NoSpaces(texts[0]))
  }

  predicate InnerText(s: string) {
    s != "" && Trimmed(s) && PlainChars(s) && '\n' !in s
  }

  lemma JoinTwo(a: string, b: string)
    requires InnerText(a) && InnerText(b)
    ensures InnerText(a + [','] + b)
  {
    var s := a + [','] + b;
    assert s[0] == a[0] && s[|s| - 1] == b[|b| - 1];
    forall i | 0 <= i < |s| ensures s[i] != '"' && s[i] != '#' && !IsBlank(s[i]) {
      assert s[i] == if i < |a| then a[i] else if i == |a| then ',' else b[i - |a| - 1];
    }
  }

  lemma {:induction false} JoinItemChars(texts: seq<string>)
    requires texts != [] && ItemTexts(texts)
    ensures InnerText(Join(texts, ','))
    ensures |texts| == 1 <==> ',' !in Join(texts, ',')
  {
    if |texts| > 1 {
      JoinItemChars(texts[1..]);
      var tail := Join(texts[1..], ',');
      assert Join(texts, ',') == texts[0] + [','] + tail;
      JoinTwo(texts[0], tail);
      assert (texts[0] + [','] + tail)[|texts[0]|] == ',';
    }
  }

  lemma {:induction false} TrimItems(texts: seq<string>)
    requires ItemTexts(texts)
    ensures TrimmedNonEmpty(texts) == texts
  {
    if texts != [] {
      TrimItems(texts[1..]);
      TrimSpaceOfTrimmed(texts[0]);
    }
  }

  lemma FieldsOne(s: string)
    requires s != "" && NoSpaces(s)
    ensures Fields(s) == [s]
  {
    assert TrimLeft(s) == s;
    assert SpaceIndex(s) == |s|;
    assert s[..|s|] == s && s[|s|..] == "";
    assert Fields("") == [];
  }

  /** The parts of a bracket list, as printed, are its items. */
  lemma BracketParts(texts: seq<string>)
    requires ListTexts(texts)
    ensures ParseItems(Join(texts, ',')) == texts
  {
    JoinItemChars(texts);
    if |texts| == 1 {
      FieldsOne(texts[0]);
    } else {
      SplitJoin(texts, ',');
      TrimItems(texts);
    }
  }

  lemma BracketShape(inner: string)
    requires inner != "" && Trimmed(inner)
    ensures var s := "[" + inner + "]";
            TrimSpace(s) == s && Trimmed(s) && Bracketed(s) && TrimSpace(s[1..|s| - 1]) == inner
  {
    var s := "[" + inner + "]";
    assert s[0] == '[' && s[|s| - 1] == ']';
    TrimSpaceOfTrimmed(s);
    assert s[..1] == "[" && s[|s| - 1..] == "]";
    assert s[1..|s| - 1] == inner;
    TrimSpaceOfTrimmed(inner);
  }

  lemma BracketedValue(e: Fmt, s: string, inner: string)
    requires TrimSpace(s) == s && Bracketed(s) && TrimSpace(s[1..|s| - 1]) == inner != ""
    ensures ParseTugValue(e, s) == StrList(ParseItems(inner))
  {
  }

  lemma BracketText(inner: string)
    requires InnerText(inner)
    ensures var text := "[" + inner + "]";
            ValueText(text, text) && '\n' !in text
  {
  }

  lemma ListLineReads(e: Fmt, path: seq<string>, texts: seq<string>)
    requires PathSafe(path) && ListTexts(texts)
    ensures LinesRead(e, [SetLine(Join(path, ' '), "[" + Join(texts, ',') + "]")], path, [Op([], StrList(texts))])
  {
    var inner := Join(texts, ',');
    var text := "[" + inner + "]";
    JoinItemChars(texts);
    BracketShape(inner);
    BracketText(inner);
    BracketedValue(e, text, inner);
    BracketParts(texts);
    SetLineNoNewline(path, text);
    SetLineReads(e, path, text, text);
    OneLineReads(e, SetLine(Join(path, ' '), text), path, StrList(texts));
  }

  lemma EmitScalarList(e: Fmt, prefix: string, items: seq<OTree>)
    requires !AllMaps(items)
    ensures Emit(e, prefix, OList(items)) == [SetLine(prefix, "[" + Join(SprintAll(e, items), ',') + "]")]
  {
  }

  lemma SafeListTexts(e: Fmt, items: seq<OTree>)
    requires ListSafe(View(OList(items)).items)
    ensures !AllMaps(items) && ListTexts(SprintAll(e, items))
    ensures StrList(SprintAll(e, items)) == View(OList(items))
  {
    var its := View(OList(items)).items;
    assert forall i | 0 <= i < |items| :: its[i] == View(items[i]);
    assert View(items[0]) == its[0];
    assert !items[0].OMap?;
  }

  lemma ListReads(e: Fmt, path: seq<string>, items: seq<OTree>)
    requires PathSafe(path) && ListSafe(View(OList(items)).items)
    ensures LinesRead(e, Emit(e, Join(path, ' '), OList(items)), path, [Op([], View(OList(items)))])
  {
    SafeListTexts(e, items);
    EmitScalarList(e, Join(path, ' '), items);
    ListLineReads(e, path, SprintAll(e, items));
  }

  // ---------------------------------------------------------------- plain subtrees

  lemma PairsConcat(p: (string, Op) -> bool, a: seq<string>, b: seq<string>, opsA: seq<Op>, opsB: seq<Op>)
    requires |a| == |opsA| && |b| == |opsB|
    requires forall i | 0 <= i < |a| :: p(a[i], opsA[i])
    requires forall i | 0 <= i < |b| :: p(b[i], opsB[i])
    ensures forall i | 0 <= i < |a + b| :: p((a + b)[i], (opsA + opsB)[i])
  {
  }

  lemma LinesReadConcat(e: Fmt, a: seq<string>, b: seq<string>, path: seq<string>, opsA: seq<Op>, opsB: seq<Op>)
    requires LinesRead(e, a, path, opsA) && LinesRead(e, b, path, opsB)
    ensures LinesRead(e, a + b, path, opsA + opsB)
  {
    PairsConcat((l: string, o: Op) => LineRead(e, l, path, o), a, b, opsA, opsB);
  }

  lemma LinesReadLift(e: Fmt, lines: seq<string>, path: seq<string>, k: string, ops: seq<Op>)
    requires LinesRead(e, lines, path + [k], ops)
    ensures LinesRead(e, lines, path, Lift(k, ops))
  {
    forall i | 0 <= i < |lines| ensures LineRead(e, lines[i], path, Lift(k, ops)[i]) {
      assert LineRead(e, lines[i], path + [k], ops[i]);
      assert path + ([k] + ops[i].path) == path + [k] + ops[i].path;
    }
  }

  lemma PathSafeSnoc(path: seq<string>, k: string)
    requires PathSafe(path) && TokenSafe(k)
    ensures PathSafe(path + [k]) && Join(path, ' ') != "" && Under(Join(path, ' '), k) == Join(path + [k], ' ')
    ensures Join(path, ' ') + " " + k == Join(path + [k], ' ')
  {
    JoinSnoc(path, k, ' ');
  }

  /** The lines printed for a plain subtree read back as the updates that rebuild it. */
  lemma {:induction false} PlainReads(e: Fmt, path: seq<string>, o: OTree)
    requires PathSafe(path) && WellKeyed(o) && Plain(e, View(o))
    ensures LinesRead(e, Emit(e, Join(path, ' '), o), path, ValueOps(o))
    decreases o, 1
  {
    match o
    case OLeaf(v) => LeafReads(e, path, v);
    case OList(items) => ListReads(e, path, items);
    case OMap(fields) => PlainFieldsRead(e, path, fields);
    case ONil =>
  }

  lemma PlainFieldsSplit(e: Fmt, fields: seq<Field>)
    requires fields != [] && WellKeyedFields(fields) && PlainMap(e, ViewFields(fields))
    ensures TokenSafe(fields[0].key) && WellKeyed(fields[0].val) && Plain(e, View(fields[0].val))
    ensures WellKeyedFields(fields[1..]) && PlainMap(e, ViewFields(fields[1..]))
  {
    ViewFieldsCons(fields);
    assert fields[0].key in ViewFields(fields) && ViewFields(fields)[fields[0].key] == View(fields[0].val);
    forall k | k in ViewFields(fields[1..])
      ensures k in ViewFields(fields) && ViewFields(fields)[k] == ViewFields(fields[1..])[k]
    {
    }
  }

  lemma {:induction false} PlainFieldsRead(e: Fmt, path: seq<string>, fields: seq<Field>)
    requires PathSafe(path) && WellKeyedFields(fields) && PlainMap(e, ViewFields(fields))
    ensures LinesRead(e, EmitFields(e, Join(path, ' '), fields), path, FieldsOps(fields))
    decreases fields, 0
  {
    if fields != [] {
      var f := fields[0];
      PlainFieldsSplit(e, fields);
      PathSafeSnoc(path, f.key);
      PlainReads(e, path + [f.key], f.val);
      LinesReadLift(e, Emit(e, Under(Join(path, ' '), f.key), f.val), path, f.key, ValueOps(f.val));
      PlainFieldsRead(e, path, fields[1..]);
      LinesReadConcat(e, Emit(e, Under(Join(path, ' '), f.key), f.val), EmitFields(e, Join(path, ' '), fields[1..]),
                      path, Lift(f.key, ValueOps(f.val)), FieldsOps(fields[1..]));
    }
  }

  // ---------------------------------------------------------------- running what was read

  /** Tokens that path normalisation leaves alone. */
  predicate Normal(path: seq<string>) {
    forall i | 0 <= i < |path| :: NormalizeKey(path[i]) == path[i]
  }

  predicate NormalOps(ops: seq<Op>) {
    forall i | 0 <= i < |ops| :: Normal(ops[i].path)
  }

  lemma NormalizeNormal(path: seq<string>)
    requires Normal(path)
    ensures NormalizePath(path) == path
  {
  }

  lemma NormalConcat(p: seq<string>, q: seq<string>)
    requires Normal(p) && Normal(q)
    ensures NormalizePath(p + q) == p + q
  {
    NormalizeNormal(p + q);
  }

  lemma NormalCons(k: string, p: seq<string>)
    requires NormalizeKey(k) == k && Normal(p)
    ensures Normal([k] + p)
  {
  }

  lemma NormalLift(k: string, ops: seq<Op>)
    requires NormalizeKey(k) == k && NormalOps(ops)
    ensures NormalOps(Lift(k, ops))
  {
    forall i | 0 <= i < |ops| ensures Normal(Lift(k, ops)[i].path) {
      NormalCons(k, ops[i].path);
    }
  }

  lemma {:induction false} PlainOpsNormal(e: Fmt, o: OTree)
    requires WellKeyed(o) && Plain(e, View(o))
    ensures NormalOps(ValueOps(o))
    decreases o, 1
  {
    if o.OMap? {
      PlainFieldsOpsNormal(e, o.fields);
    }
  }

  lemma {:induction false} PlainFieldsOpsNormal(e: Fmt, fields: seq<Field>)
    requires WellKeyedFields(fields) && PlainMap(e, ViewFields(fields))
    ensures NormalOps(FieldsOps(fields))
    decreases fields, 0
  {
    if fields != [] {
      PlainFieldsSplit(e, fields);
      PlainOpsNormal(e, fields[0].val);
      NormalLift(fields[0].key, ValueOps(fields[0].val));
      PlainFieldsOpsNormal(e, fields[1..]);
    }
  }

  /** A plain tree is solid. */
  lemma {:induction false} PlainIsSolid(e: Fmt, t: Tree)
    requires Plain(e, t)
    ensures Solid(t)
    decreases t, 1
  {
    if t.Map? {
      PlainMapIsSolid(e, t.m);
    }
  }

  lemma {:induction false} PlainMapIsSolid(e: Fmt, m: TreeMap)
    requires PlainMap(e, m)
    ensures SolidMap(m)
    decreases Map(m), 0
  {
    forall k | k in m ensures (k == "roles" ==> !m[k].Leaf?) && Solid(m[k]) {
      PlainIsSolid(e, m[k]);
    }
  }

  predicate Direct(path: seq<string>) {
    path != [] && !IsPopPath(path) && !IsBargePath(path)
  }

  lemma ApplyLinesStep(e: Fmt, m: TreeMap, lines: seq<string>, path: seq<string>, val: Tree)
    requires lines != [] && ParseLine(e, lines[0]) == Set(path, val)
    ensures var r := TreeSet(e, m, path, val);
            ApplyLines(e, m, lines) == if r.Err? then r else ApplyLines(e, r.tree, lines[1..])
  {
  }

  lemma DirectSet(e: Fmt, m: TreeMap, path: seq<string>, val: Tree)
    requires Direct(path) && NormalizePath(path) == path
    ensures TreeSet(e, m, path, val) == Ok(SetNested(e, m, path, val))
  {
  }

  lemma LinesReadTail(e: Fmt, lines: seq<string>, path: seq<string>, ops: seq<Op>)
    requires LinesRead(e, lines, path, ops) && lines != []
    ensures LinesRead(e, lines[1..], path, ops[1..])
  {
    forall i | 0 <= i < |lines| - 1 ensures LineRead(e, lines[1..][i], path, ops[1..][i]) {
      assert LineRead(e, lines[i + 1], path, ops[i + 1]);
    }
  }

  /** Lines below a plain top-level key run as nested updates. */
  lemma {:induction false} RunDirect(e: Fmt, m: TreeMap, lines: seq<string>, k: string, ops: seq<Op>)
    requires LinesRead(e, lines, [k], ops) && NormalizeKey(k) == k && NormalOps(ops)
    requires forall i | 0 <= i < |ops| :: Direct([k] + ops[i].path)
    ensures ApplyLines(e, m, lines) == Ok(NestRun(e, m, Lift(k, ops)))
    decreases |lines|
  {
    if lines != [] {
      var path := [k] + ops[0].path;
      assert LineRead(e, lines[0], [k], ops[0]);
      assert Direct(path);
      NormalCons(k, ops[0].path);
      NormalizeNormal(path);
      ApplyLinesStep(e, m, lines, path, ops[0].val);
      DirectSet(e, m, path, ops[0].val);
      LinesReadTail(e, lines, [k], ops);
      RunDirect(e, SetNested(e, m, path, ops[0].val), lines[1..], k, ops[1..]);
      assert Lift(k, ops)[1..] == Lift(k, ops[1..]);
    }
  }

  /** The two keyed lists: `pops` by id, and the `barges` of `stack` by name. */
  datatype Keyed = Pops | Barges {
    function KeyField(): string {
      if Pops? then "id" else "name"
    }

    function Path(key: string): seq<string> {
      if Pops? then ["pop", key] else ["stack", "barge", key]
    }

    function Fetch(m: TreeMap): seq<Tree> {
      if Pops? then SubList(m, "pops") else SubList(SubMap(m, "stack"), "barges")
    }

    function Store(m: TreeMap, items: seq<Tree>): TreeMap {
      if Pops? then m["pops" := List(items)]
      else m["stack" := Map(SubMap(m, "stack")["barges" := List(items)])]
    }
  }

  lemma StoreLaws(l: Keyed, m: TreeMap, items: seq<Tree>, items': seq<Tree>)
    ensures l.Fetch(l.Store(m, items)) == items
    ensures l.Store(l.Store(m, items), items') == l.Store(m, items')
  {
    if l.Barges? {
      var sub := SubMap(m, "stack");
      assert sub["barges" := List(items)]["barges" := List(items')] == sub["barges" := List(items')];
    }
  }

  lemma KeyedSet(e: Fmt, l: Keyed, m: TreeMap, key: string, rest: seq<string>, val: Tree)
    requires rest != [] && NormalizePath(l.Path(key) + rest) == l.Path(key) + rest
    ensures TreeSet(e, m, l.Path(key) + rest, val)
         == Ok(l.Store(m, SetKeyedItems(e, l.Fetch(m), l.KeyField(), key, rest, val)))
  {
    assert (l.Path(key) + rest)[|l.Path(key)|..] == rest;
    assert BARGES[1..] == ["barges"];
  }

  /** Lines below one keyed entry run as updates of that entry. */
  lemma {:induction false} RunKeyed(e: Fmt, l: Keyed, m: TreeMap, lines: seq<string>, key: string, ops: seq<Op>)
    requires LinesRead(e, lines, l.Path(key), ops) && ops != [] && Proper(ops)
    requires Normal(l.Path(key)) && NormalOps(ops)
    ensures ApplyLines(e, m, lines) == Ok(l.Store(m, KeyedRun(e, l.Fetch(m), l.KeyField(), key, ops)))
    decreases |lines|, 0
  {
    var path := l.Path(key) + ops[0].path;
    assert LineRead(e, lines[0], l.Path(key), ops[0]);
    NormalConcat(l.Path(key), ops[0].path);
    ApplyLinesStep(e, m, lines, path, ops[0].val);
    KeyedSet(e, l, m, key, ops[0].path, ops[0].val);
    LinesReadTail(e, lines, l.Path(key), ops);
    RunKeyedTail(e, l, m, SetKeyedItems(e, l.Fetch(m), l.KeyField(), key, ops[0].path, ops[0].val),
                 lines[1..], key, ops[1..]);
  }

  lemma {:induction false} RunKeyedTail(e: Fmt, l: Keyed, m: TreeMap, items: seq<Tree>, lines: seq<string>,
                                        key: string, ops: seq<Op>)
    requires LinesRead(e, lines, l.Path(key), ops) && Proper(ops)
    requires Normal(l.Path(key)) && NormalOps(ops)
    ensures ApplyLines(e, l.Store(m, items), lines) == Ok(l.Store(m, KeyedRun(e, items, l.KeyField(), key, ops)))
    decreases |lines|, 1
  {
    if ops != [] {
      var m' := l.Store(m, items);
      RunKeyed(e, l, m', lines, key, ops);
      StoreLaws(l, m, items, KeyedRun(e, items, l.KeyField(), key, ops));
    }
  }

  // ---------------------------------------------------------------- keyed lists

  function ListPrefix(l: Keyed): string {
    if l.Pops? then "pops" else "stack barges"
  }

  lemma {:induction false} ContainsLast(a: string, p: string)
    ensures Contains(a + p, p)
  {
    if a == "" {
      assert a + p == p && p[..|p|] == p;
    } else {
      assert (a + p)[1..] == a[1..] + p;
      ContainsLast(a[1..], p);
    }
  }

  lemma PopHead(key: string)
    ensures EntryHead("pops", key) == Join(["pop", key], ' ')
  {
    assert "pops"[|"pops"| - 4..] == "pops";
    assert ["pop", key][1..] == [key];
  }

  lemma BargeHead(key: string)
    ensures EntryHead("stack barges", key) == Join(["stack", "barge", key], ' ')
  {
    BargesPrefix();
    JoinThree("stack", "barge", key);
  }

  lemma BargesPrefix()
    ensures !HasSuffix("stack barges", "pops") && Contains("stack barges", "barges")
  {
    ContainsLast("stack ", "barges");
    assert "stack " + "barges" == "stack barges";
    assert "stack barges"[|"stack barges"| - 4..][0] == 'r';
  }

  lemma JoinThree(a: string, b: string, c: string)
    ensures Join([a, b, c], ' ') == a + " " + b + " " + c
  {
    assert [a, b, c][1..] == [b, c] && [b, c][1..] == [c];
    assert Join([b, c], ' ') == b + [' '] + c;
  }

  lemma WordsSafe()
    ensures TokenSafe("pop") && TokenSafe("stack") && TokenSafe("barge")
  {
  }

  lemma HeadOfEntry(l: Keyed, key: string)
    requires TokenSafe(key)
    ensures EntryHead(ListPrefix(l), key) == Join(l.Path(key), ' ')
    ensures PathSafe(l.Path(key)) && Normal(l.Path(key))
  {
    WordsSafe();
    if l.Pops? {
      PopHead(key);
      NormalCons("pop", [key]);
      assert ["pop"] + [key] == l.Path(key);
    } else {
      BargeHead(key);
      NormalCons("barge", [key]);
      NormalCons("stack", ["barge"] + [key]);
      assert ["stack"] + (["barge"] + [key]) == l.Path(key);
    }
  }

  lemma {:induction false} ChildrenEmit(e: Fmt, head: string, fields: seq<Field>, skip: string)
    requires head != ""
    ensures EmitChildren(e, head, fields, skip) == EmitFields(e, head, Children(fields, skip))
  {
    if fields != [] {
      ChildrenEmit(e, head, fields[1..], skip);
      if fields[0].key != skip {
        var cs := Children(fields, skip);
        assert cs[0] == fields[0] && cs[1..] == Children(fields[1..], skip);
      }
    }
  }

  lemma {:induction false} FieldIndexView(fields: seq<Field>, k: string)
    requires WellKeyedFields(fields)
    ensures var i := FieldIndex(fields, k);
            if k in ViewFields(fields) then i < |fields| && View(fields[i].val) == ViewFields(fields)[k]
            else i == |fields|
  {
    if fields != [] {
      ViewFieldsCons(fields);
      FieldIndexView(fields[1..], k);
    }
  }

  /** A safe entry is printed under its own key. */
  lemma EmitEntry(e: Fmt, l: Keyed, fields: seq<Field>)
    requires WellKeyedFields(fields) && EntrySafe(e, Map(ViewFields(fields)), l.KeyField())
    ensures var key := ViewFields(fields)[l.KeyField()].v.s;
            EmitItem(e, ListPrefix(l), fields)
            == EmitFields(e, Join(l.Path(key), ' '), Children(fields, l.KeyField()))
  {
    FieldIndexView(fields, "id");
    FieldIndexView(fields, "name");
    var key := ViewFields(fields)[l.KeyField()].v.s;
    HeadOfEntry(l, key);
    ChildrenEmit(e, Join(l.Path(key), ' '), fields, l.KeyField());
  }

  /** Reading one printed entry appends exactly that entry. */
  lemma EntryRoundTrip(e: Fmt, l: Keyed, m: TreeMap, fields: seq<Field>)
    requires WellKeyedFields(fields) && EntrySafe(e, Map(ViewFields(fields)), l.KeyField())
    requires NoEntry(e, l.Fetch(m), l.KeyField(), ViewFields(fields)[l.KeyField()].v.s)
    ensures Clean(EmitItem(e, ListPrefix(l), fields))
    ensures ApplyLines(e, m, EmitItem(e, ListPrefix(l), fields))
         == Ok(l.Store(m, l.Fetch(m) + [View(OMap(fields))]))
  {
    var kf := l.KeyField();
    var key := ViewFields(fields)[kf].v.s;
    var cs := Children(fields, kf);
    EmitEntry(e, l, fields);
    HeadOfEntry(l, key);
    ChildrenView(fields, kf);
    PlainFieldsRead(e, l.Path(key), cs);
    PlainFieldsOpsNormal(e, cs);
    PlainMapIsSolid(e, ViewFields(cs));
    EntryRebuild(e, l.Fetch(m), kf, key, fields);
    RunKeyed(e, l, m, EmitFields(e, Join(l.Path(key), ' '), cs), key, FieldsOps(cs));
    ReadIsClean(e, EmitFields(e, Join(l.Path(key), ' '), cs), l.Path(key), FieldsOps(cs));
  }

  function Views(items: seq<OTree>): (r: seq<Tree>)
    ensures |r| == |items| && forall i | 0 <= i < |items| :: r[i] == View(items[i])
  {
    View(OList(items)).items
  }

  lemma ViewsTail(items: seq<OTree>)
    requires items != []
    ensures Views(items) == [View(items[0])] + Views(items[1..])
  {
  }

  predicate EntriesSafe(e: Fmt, l: Keyed, items: seq<Tree>) {
    forall i | 0 <= i < |items| :: EntrySafe(e, items[i], l.KeyField())
  }

  predicate KeysApart(l: Keyed, items: seq<Tree>)
    requires forall i | 0 <= i < |items| :: items[i].Map? && l.KeyField() in items[i].m
    requires forall i | 0 <= i < |items| :: items[i].m[l.KeyField()].Leaf? && items[i].m[l.KeyField()].v.Str?
  {
    forall i, j | 0 <= i < j < |items| :: !EqualFold(items[i].m[l.KeyField()].v.s, items[j].m[l.KeyField()].v.s)
  }

  lemma ApartMeansNew(e: Fmt, l: Keyed, done: seq<Tree>, t: Tree, rest: seq<Tree>)
    requires EntriesSafe(e, l, done + [t] + rest) && KeysApart(l, done + [t] + rest)
    ensures EntrySafe(e, t, l.KeyField()) && NoEntry(e, done, l.KeyField(), t.m[l.KeyField()].v.s)
  {
    var all := done + [t] + rest;
    assert all[|done|] == t;
    forall i | 0 <= i < |done| ensures !IsEntry(e, done[i], l.KeyField(), t.m[l.KeyField()].v.s) {
      assert all[i] == done[i];
      assert EntrySafe(e, all[i], l.KeyField());
    }
  }

  lemma {:induction false} EntriesRoundTrip(e: Fmt, l: Keyed, m: TreeMap, done: seq<Tree>, items: seq<OTree>)
    requires AllMaps(items) && forall i | 0 <= i < |items| :: WellKeyed(items[i])
    requires EntriesSafe(e, l, done + Views(items)) && KeysApart(l, done + Views(items))
    ensures Clean(EmitItems(e, ListPrefix(l), items))
    ensures ApplyLines(e, l.Store(m, done), EmitItems(e, ListPrefix(l), items))
         == Ok(l.Store(m, done + Views(items)))
    decreases |items|
  {
    if items == [] {
      assert done + Views(items) == done;
    } else {
      var t := View(items[0]);
      var m' := l.Store(m, done);
      ViewsTail(items);
      assert done + Views(items) == done + [t] + Views(items[1..]);
      ApartMeansNew(e, l, done, t, Views(items[1..]));
      StoreLaws(l, m, done, done + [t]);
      EntryRoundTrip(e, l, m', items[0].fields);
      EntriesRoundTrip(e, l, m, done + [t], items[1..]);
      ApplyLinesConcat(e, m', EmitItem(e, ListPrefix(l), items[0].fields), EmitItems(e, ListPrefix(l), items[1..]));
    }
  }

  lemma FirstIsSafe(e: Fmt, l: Keyed, items: seq<OTree>)
    requires items != [] && AllMaps(items) && EntriesSafe(e, l, Views(items))
    ensures EntrySafe(e, Map(ViewFields(items[0].fields)), l.KeyField())
  {
    assert Views(items)[0] == View(items[0]);
  }

  lemma FirstEntry(e: Fmt, l: Keyed, m: TreeMap, items: seq<OTree>, t: Tree)
    requires items != [] && AllMaps(items) && WellKeyed(items[0]) && t == View(items[0])
    requires EntriesSafe(e, l, Views(items)) && l.Fetch(m) == []
    ensures Clean(EmitItem(e, ListPrefix(l), items[0].fields))
    ensures ApplyLines(e, m, EmitItem(e, ListPrefix(l), items[0].fields)) == Ok(l.Store(m, [t]))
  {
    FirstIsSafe(e, l, items);
    EntryRoundTrip(e, l, m, items[0].fields);
    assert [] + [t] == [t];
  }

  /** Reading a printed keyed list into a tree that has none builds exactly that list. */
  lemma KeyedListRoundTrip(e: Fmt, l: Keyed, m: TreeMap, items: seq<OTree>)
    requires items != [] && AllMaps(items) && forall i | 0 <= i < |items| :: WellKeyed(items[i])
    requires EntriesSafe(e, l, Views(items)) && KeysApart(l, Views(items)) && l.Fetch(m) == []
    ensures Clean(EmitItems(e, ListPrefix(l), items))
    ensures ApplyLines(e, m, EmitItems(e, ListPrefix(l), items)) == Ok(l.Store(m, Views(items)))
  {
    var t := View(items[0]);
    ViewsTail(items);
    FirstEntry(e, l, m, items, t);
    EntriesRoundTrip(e, l, m, [t], items[1..]);
    ApplyLinesConcat(e, m, EmitItem(e, ListPrefix(l), items[0].fields), EmitItems(e, ListPrefix(l), items[1..]));
    CleanConcat(EmitItem(e, ListPrefix(l), items[0].fields), EmitItems(e, ListPrefix(l), items[1..]));
  }

  lemma KeyedSafeEntries(e: Fmt, l: Keyed, items: seq<OTree>)
    requires KeyedSafe(e, Views(items), l.KeyField())
    ensures items != [] && AllMaps(items) && EntriesSafe(e, l, Views(items)) && KeysApart(l, Views(items))
  {
    forall i | 0 <= i < |items| ensures items[i].OMap? {
      assert EntrySafe(e, Views(items)[i], l.KeyField());
    }
  }

  // ---------------------------------------------------------------- the fields of a site

  /** A plain field read into a tree without its key. */
  lemma PlainFieldRoundTrip(e: Fmt, m: TreeMap, f: Field)
    requires f.key !in m && TokenSafe(f.key) && WellKeyed(f.val) && Plain(e, View(f.val))
    requires f.key == "roles" ==> !f.val.OLeaf?
    requires f.key == "pop" || f.key == "stack" ==> !f.val.OMap?
    ensures Clean(Emit(e, f.key, f.val))
    ensures ApplyLines(e, m, Emit(e, f.key, f.val)) == Ok(m[f.key := View(f.val)])
  {
    var k := f.key;
    assert Join([k], ' ') == k;
    PlainReads(e, [k], f.val);
    PlainOpsNormal(e, f.val);
    PlainIsSolid(e, View(f.val));
    var ops := ValueOps(f.val);
    forall i | 0 <= i < |ops| ensures Direct([k] + ops[i].path) {
      if k == "pop" || k == "stack" {
        assert ops[i].path == [];
      } else {
        assert ([k] + ops[i].path)[0] == k;
      }
    }
    RunDirect(e, m, Emit(e, k, f.val), k, ops);
    ReadIsClean(e, Emit(e, k, f.val), [k], ops);
    FieldRebuild(e, m, k, f.val);
  }

  /** A plain field of `stack`. */
  lemma StackPlainRoundTrip(e: Fmt, m: TreeMap, f: Field)
    requires f.key !in SubMap(m, "stack") && TokenSafe(f.key) && WellKeyed(f.val) && Plain(e, View(f.val))
    requires f.key == "roles" ==> !f.val.OLeaf?
    requires f.key == "barge" || f.key == "product" ==> !f.val.OMap?
    ensures Clean(Emit(e, Under("stack", f.key), f.val))
    ensures ApplyLines(e, m, Emit(e, Under("stack", f.key), f.val))
         == Ok(m["stack" := Map(SubMap(m, "stack")[f.key := View(f.val)])])
  {
    var j := f.key;
    var lines := Emit(e, Under("stack", j), f.val);
    assert Join(["stack"], ' ') == "stack";
    StackSafe();
    PathSafeSnoc(["stack"], j);
    PlainReads(e, ["stack"] + [j], f.val);
    PlainOpsNormal(e, f.val);
    PlainIsSolid(e, View(f.val));
    var ops := Lift(j, ValueOps(f.val));
    LinesReadLift(e, lines, ["stack"], j, ValueOps(f.val));
    NormalLift(j, ValueOps(f.val));
    forall i | 0 <= i < |ops| ensures Direct(["stack"] + ops[i].path) {
      StackDirect(j, ValueOps(f.val)[i].path, f.val.OMap?);
    }
    RunDirect(e, m, lines, "stack", ops);
    ReadIsClean(e, lines, ["stack"], ops);
    OpsNonEmpty(f.val);
    FieldRebuild(e, SubMap(m, "stack"), j, f.val);
    NestRunUnder(e, m, "stack", ops);
  }

  lemma StackSafe()
    ensures PathSafe(["stack"]) && TokenSafe("stack") && Under("stack", "barges") == "stack barges"
  {
  }

  lemma StackDirect(j: string, p: seq<string>, deep: bool)
    requires p != [] ==> deep
    requires j == "barge" || j == "product" ==> !deep
    ensures Direct(["stack"] + ([j] + p))
  {
    var path := ["stack"] + ([j] + p);
    assert path[0] == "stack" && path[1] == j;
  }

  lemma EmitKeyedList(e: Fmt, prefix: string, items: seq<OTree>)
    requires AllMaps(items)
    ensures Emit(e, prefix, OList(items)) == EmitItems(e, prefix, items)
  {
  }

  lemma StackFieldRoundTrip(e: Fmt, m: TreeMap, f: Field)
    requires f.key !in SubMap(m, "stack") && WellKeyed(f.val) && StackFieldSafe(e, f.key, View(f.val))
    ensures Clean(Emit(e, Under("stack", f.key), f.val))
    ensures ApplyLines(e, m, Emit(e, Under("stack", f.key), f.val))
         == Ok(m["stack" := Map(SubMap(m, "stack")[f.key := View(f.val)])])
  {
    if Plain(e, View(f.val)) {
      StackPlainRoundTrip(e, m, f);
    } else {
      var items := f.val.items;
      StackSafe();
      KeyedSafeEntries(e, Barges, items);
      EmitKeyedList(e, "stack barges", items);
      KeyedListRoundTrip(e, Barges, m, items);
    }
  }

  predicate StackSafeMap(e: Fmt, m: TreeMap) {
    forall k | k in m :: StackFieldSafe(e, k, m[k])
  }

  lemma StackFieldsSplit(e: Fmt, fields: seq<Field>)
    requires fields != [] && WellKeyedFields(fields) && StackSafeMap(e, ViewFields(fields))
    ensures WellKeyed(fields[0].val) && StackFieldSafe(e, fields[0].key, View(fields[0].val))
    ensures WellKeyedFields(fields[1..]) && StackSafeMap(e, ViewFields(fields[1..]))
  {
    ViewFieldsCons(fields);
    assert ViewFields(fields)[fields[0].key] == View(fields[0].val);
    forall k | k in ViewFields(fields[1..]) ensures StackFieldSafe(e, k, ViewFields(fields[1..])[k]) {
      assert k in ViewFields(fields) && ViewFields(fields)[k] == ViewFields(fields[1..])[k];
    }
  }

  /** Adding a well-keyed view field by field. */
  lemma AddFields(m: TreeMap, fields: seq<Field>)
    requires fields != [] && WellKeyedFields(fields) && m.Keys !! ViewFields(fields).Keys
    ensures fields[0].key !in m
    ensures var m' := m[fields[0].key := View(fields[0].val)];
            m'.Keys !! ViewFields(fields[1..]).Keys && m' + ViewFields(fields[1..]) == m + ViewFields(fields)
  {
    ViewFieldsCons(fields);
    assert fields[0].key in ViewFields(fields);
  }

  function StackWith(m: TreeMap, sub: TreeMap): TreeMap {
    m["stack" := Map(sub)]
  }

  lemma StackWithTwice(m: TreeMap, a: TreeMap, b: TreeMap)
    ensures SubMap(StackWith(m, a), "stack") == a && StackWith(StackWith(m, a), b) == StackWith(m, b)
  {
  }

  /** Reading the fields of `stack` one after the other; `sub` is what was read so far. */
  lemma {:induction false} StackFieldsRoundTrip(e: Fmt, m: TreeMap, sub: TreeMap, fields: seq<Field>)
    requires WellKeyedFields(fields) && StackSafeMap(e, ViewFields(fields))
    requires sub.Keys !! ViewFields(fields).Keys
    ensures Clean(EmitFields(e, "stack", fields))
    ensures ApplyLines(e, StackWith(m, sub), EmitFields(e, "stack", fields))
         == Ok(StackWith(m, sub + ViewFields(fields)))
    decreases |fields|
  {
    if fields == [] {
      assert sub + ViewFields(fields) == sub;
    } else {
      var f := fields[0];
      var rest := fields[1..];
      var sub' := sub[f.key := View(f.val)];
      StackFieldsSplit(e, fields);
      AddFields(sub, fields);
      StackWithTwice(m, sub, sub');
      StackFieldRoundTrip(e, StackWith(m, sub), f);
      StackFieldsRoundTrip(e, m, sub', rest);
      ApplyLinesConcat(e, StackWith(m, sub), Emit(e, Under("stack", f.key), f.val), EmitFields(e, "stack", rest));
      CleanConcat(Emit(e, Under("stack", f.key), f.val), EmitFields(e, "stack", rest));
    }
  }

  /** The map under `stack`, read into a tree that has none. */
  lemma StackRoundTrip(e: Fmt, m: TreeMap, fields: seq<Field>)
    requires fields != [] && "stack" !in m && WellKeyedFields(fields) && StackSafeMap(e, ViewFields(fields))
    ensures Clean(EmitFields(e, "stack", fields))
    ensures ApplyLines(e, m, EmitFields(e, "stack", fields)) == Ok(StackWith(m, ViewFields(fields)))
  {
    var f := fields[0];
    var rest := fields[1..];
    var first: TreeMap := map[f.key := View(f.val)];
    StackFieldsSplit(e, fields);
    AddFields(map[], fields);
    assert SubMap(m, "stack") == map[] && map[][f.key := View(f.val)] == first;
    StackFieldRoundTrip(e, m, f);
    StackFieldsRoundTrip(e, m, first, rest);
    assert map[] + ViewFields(fields) == ViewFields(fields);
    ApplyLinesConcat(e, m, Emit(e, Under("stack", f.key), f.val), EmitFields(e, "stack", rest));
    CleanConcat(Emit(e, Under("stack", f.key), f.val), EmitFields(e, "stack", rest));
  }

  lemma CleanConcat(a: seq<string>, b: seq<string>)
    requires Clean(a) && Clean(b)
    ensures Clean(a + b)
  {
  }

  lemma SiteFieldRoundTrip(e: Fmt, m: TreeMap, f: Field)
    requires f.key !in m && WellKeyed(f.val) && SiteFieldSafe(e, f.key, View(f.val))
    ensures Clean(Emit(e, f.key, f.val))
    ensures ApplyLines(e, m, Emit(e, f.key, f.val)) == Ok(m[f.key := View(f.val)])
  {
    var t := View(f.val);
    if f.key == "stack" && t.Map? {
      StackOfSite(e, m, f);
    } else if Plain(e, t) {
      PlainFieldRoundTrip(e, m, f);
    } else {
      PopsOfSite(e, m, f);
    }
  }

  lemma StackOfSite(e: Fmt, m: TreeMap, f: Field)
    requires f.key == "stack" && f.key !in m && WellKeyed(f.val)
    requires View(f.val).Map? && View(f.val).m != map[] && StackSafeMap(e, View(f.val).m)
    ensures Clean(Emit(e, f.key, f.val))
    ensures ApplyLines(e, m, Emit(e, f.key, f.val)) == Ok(m[f.key := View(f.val)])
  {
    assert f.val.fields != [] && View(f.val) == Map(ViewFields(f.val.fields));
    StackRoundTrip(e, m, f.val.fields);
  }

  lemma PopsOfSite(e: Fmt, m: TreeMap, f: Field)
    requires f.key == "pops" && f.key !in m && WellKeyed(f.val)
    requires View(f.val).List? && KeyedSafe(e, View(f.val).items, "id")
    ensures Clean(Emit(e, f.key, f.val))
    ensures ApplyLines(e, m, Emit(e, f.key, f.val)) == Ok(m[f.key := View(f.val)])
  {
    var items := f.val.items;
    KeyedSafeEntries(e, Pops, items);
    EmitKeyedList(e, "pops", items);
    KeyedListRoundTrip(e, Pops, m, items);
  }

  lemma SiteFieldsSplit(e: Fmt, fields: seq<Field>)
    requires fields != [] && WellKeyedFields(fields) && Printable(e, ViewFields(fields))
    ensures WellKeyed(fields[0].val) && SiteFieldSafe(e, fields[0].key, View(fields[0].val))
    ensures WellKeyedFields(fields[1..]) && Printable(e, ViewFields(fields[1..]))
  {
    ViewFieldsCons(fields);
    assert ViewFields(fields)[fields[0].key] == View(fields[0].val);
    forall k | k in ViewFields(fields[1..]) ensures SiteFieldSafe(e, k, ViewFields(fields[1..])[k]) {
      assert k in ViewFields(fields) && ViewFields(fields)[k] == ViewFields(fields[1..])[k];
    }
  }

  lemma {:induction false} SiteFieldsRoundTrip(e: Fmt, m: TreeMap, fields: seq<Field>)
    requires WellKeyedFields(fields) && m.Keys !! ViewFields(fields).Keys
    requires Printable(e, ViewFields(fields))
    ensures Clean(EmitFields(e, "", fields))
    ensures ApplyLines(e, m, EmitFields(e, "", fields)) == Ok(m + ViewFields(fields))
    decreases |fields|
  {
    if fields == [] {
      assert m + ViewFields(fields) == m;
    } else {
      var f := fields[0];
      var rest := fields[1..];
      SiteFieldsSplit(e, fields);
      AddFields(m, fields);
      SiteFieldRoundTrip(e, m, f);
      SiteFieldsRoundTrip(e, m[f.key := View(f.val)], rest);
      ApplyLinesConcat(e, m, Emit(e, f.key, f.val), EmitFields(e, "", rest));
      CleanConcat(Emit(e, f.key, f.val), EmitFields(e, "", rest));
    }
  }

  lemma TextLines(lines: seq<string>)
    requires Clean(lines)
    ensures Split(SetLinesText(lines), '\n') == (if lines == [] then [""] else lines) + [""]
  {
    var parts := (if lines == [] then [""] else lines) + [""];
    if lines == [] {
      assert parts[1..] == [""] && "\n" == "" + ['\n'] + "";
    } else {
      JoinSnoc(lines, "", '\n');
    }
    assert SetLinesText(lines) == Join(parts, '\n');
    forall p | p in parts ensures '\n' !in p {
    }
    SplitJoin(parts, '\n');
  }

  lemma BlankLine(e: Fmt, m: TreeMap)
    ensures ApplyLines(e, m, [""]) == Ok(m)
  {
    assert ParseLine(e, "") == Skip;
  }

  /** Printing and reading are inverse: for every printable tree, and every order in which the
      printer may visit the fields of its maps, the text reads back as exactly that tree. */
  lemma PrintThenRead(e: Fmt, fields: seq<Field>)
    requires WellKeyedFields(fields) && Printable(e, ViewFields(fields))
    ensures ApplySource(e, map[], SetLinesText(Emit(e, "", OMap(fields)))) == Ok(ViewFields(fields))
  {
    SiteFieldsRoundTrip(e, map[], fields);
    assert map[] + ViewFields(fields) == ViewFields(fields);
    TextApplies(e, EmitFields(e, "", fields), ViewFields(fields));
  }

  lemma TextApplies(e: Fmt, lines: seq<string>, m: TreeMap)
    requires Clean(lines) && ApplyLines(e, map[], lines) == Ok(m)
    ensures ApplySource(e, map[], SetLinesText(lines)) == Ok(m)
  {
    TextLines(lines);
    EndsBlank(e, lines, m);
  }

  /** The text's last line is blank, and so is its only one when there is nothing to print. */
  lemma EndsBlank(e: Fmt, lines: seq<string>, m: TreeMap)
    requires ApplyLines(e, map[], lines) == Ok(m)
    ensures ApplyLines(e, map[], (if lines == [] then [""] else lines) + [""]) == Ok(m)
  {
    BlankLine(e, map[]);
    BlankLine(e, m);
    ApplyLinesConcat(e, map[], if lines == [] then [""] else lines, [""]);
  }
}