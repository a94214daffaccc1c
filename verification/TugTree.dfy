/** The generic configuration tree that Tugconf lines build (`map[string]any` in the
    source), its update operations and their get/put laws. */
module TugTree {
  import opened Text

  datatype Option<+T> = None | Some(value: T)

  datatype Scalar = Str(s: string) | Bool(b: bool) | Int(n: int) | Float(bits: nat)

  datatype Tree = Nil | Leaf(v: Scalar) | List(items: seq<Tree>) | Map(m: TreeMap)

  type TreeMap = map<string, Tree>

  /** The parts of `strconv`, `fmt` and `unicode` whose algorithms are not modelled: floating
      point text, fmt.Sprint of lists and maps, and printability beyond ASCII. */
  datatype Fmt = Fmt(
    parseFloat: string -> Option<nat>,
    formatFloat: nat -> string,
    sprintComposite: Tree -> string,
    isPrint: char -> bool)

  datatype Error =
    | EmptyPath | NeedsField | UnterminatedQuote | SetNeedsValue | DeleteNeedsPath
    | LoadNeedsFile | UnknownCommand | LoadReadsFile

  datatype Result = Ok(tree: TreeMap) | Err(error: Error)

  // ---------------------------------------------------------------- fmt.Sprint

  function SprintScalar(e: Fmt, v: Scalar): string {
    match v
    case Str(s) => s
    case Bool(b) => if b then "true" else "false"
    case Int(n) => FormatInt(n)
    case Float(bits) => e.formatFloat(bits)
  }

  /** fmt.Sprint of a tree value. */
  function Sprint(e: Fmt, t: Tree): string {
    match t
    case Nil => "<nil>"
    case Leaf(v) => SprintScalar(e, v)
    case _ => e.sprintComposite(t)
  }

  // ---------------------------------------------------------------- updates

  function SubMap(m: TreeMap, k: string): TreeMap {
    if k in m && m[k].Map? then m[k].m else map[]
  }

  function SubList(m: TreeMap, k: string): seq<Tree> {
    if k in m && m[k].List? then m[k].items else []
  }

  /** What `roles` holds after storing `val`: a list replaces, a scalar is appended once. */
  function StoreRoles(e: Fmt, old_: seq<Tree>, val: Tree): Tree {
    if val.List? then val
    else if exists i | 0 <= i < |old_| :: Sprint(e, old_[i]) == Sprint(e, val) then List(old_)
    else List(old_ + [Leaf(Str(Sprint(e, val)))])
  }

  function StoreLeaf(e: Fmt, m: TreeMap, k: string, val: Tree): TreeMap {
    if k == "roles" then m[k := StoreRoles(e, SubList(m, k), val)] else m[k := val]
  }

  function SetNested(e: Fmt, m: TreeMap, path: seq<string>, val: Tree): TreeMap
    requires path != []
    decreases |path|
  {
    if |path| == 1 then StoreLeaf(e, m, path[0], val)
    else m[path[0] := Map(SetNested(e, SubMap(m, path[0]), path[1..], val))]
  }

  function KeyText(e: Fmt, entry: TreeMap, keyField: string): string {
    if keyField in entry then Sprint(e, entry[keyField]) else Sprint(e, Nil)
  }

  predicate IsEntry(e: Fmt, item: Tree, keyField: string, key: string) {
    item.Map? && EqualFold(KeyText(e, item.m, keyField), key)
  }

  /** Index of the first entry of a keyed list with this key, or the length of the list. */
  function FindEntry(e: Fmt, items: seq<Tree>, keyField: string, key: string): (i: nat)
    ensures i <= |items|
    ensures i < |items| ==> IsEntry(e, items[i], keyField, key)
    ensures forall j | 0 <= j < i :: !IsEntry(e, items[j], keyField, key)
  {
    if items == [] then 0
    else if IsEntry(e, items[0], keyField, key) then 0
    else FindEntry(e, items[1..], keyField, key) + 1
  }

  function SetKeyedItems(e: Fmt, items: seq<Tree>, keyField: string, key: string,
                         rest: seq<string>, val: Tree): seq<Tree>
    requires rest != []
  {
    var i := FindEntry(e, items, keyField, key);
    var entry := if i < |items| then items[i].m else map[keyField := Leaf(Str(key))];
    var stored := Map(SetNested(e, entry, rest, val));
    if i < |items| then items[i := stored] else items + [stored]
  }

  function SetKeyedList(e: Fmt, m: TreeMap, listPath: seq<string>, keyField: string, key: string,
                        rest: seq<string>, val: Tree): TreeMap
    requires listPath != [] && rest != []
    decreases |listPath|
  {
    var k := listPath[0];
    if |listPath| == 1 then m[k := List(SetKeyedItems(e, SubList(m, k), keyField, key, rest, val))]
    else m[k := Map(SetKeyedList(e, SubMap(m, k), listPath[1..], keyField, key, rest, val))]
  }

  function NormalizeKey(p: string): string {
    var k := TrimSpace(p);
    match k
    case "kernel-mesh" => "kernel_mesh"
    case "public-scheme" => "public_scheme"
    case "token-env" => "token_env"
    case "node-id" => "node_id"
    case "data-dir" => "data_dir"
    case "fleet-id" => "fleet_id"
    case "hub-pop" => "hub_pop"
    case "api-version" => "apiVersion"
    case "ultimate-db" => "ultimate_db"
    case "ultimate-keystore" => "ultimate_keystore"
    case "stack-overrides" => "stack_overrides"
    case _ => k
  }

  function NormalizePath(path: seq<string>): (r: seq<string>)
    ensures |r| == |path|
    ensures forall i | 0 <= i < |path| :: r[i] == NormalizeKey(path[i])
  {
    seq(|path|, i requires 0 <= i < |path| => NormalizeKey(path[i]))
  }

  const BARGES := ["stack", "barges"]

  predicate IsBargePath(path: seq<string>) {
    |path| >= 3 && path[0] == "stack" && (path[1] == "barge" || path[1] == "product")
  }

  predicate IsPopPath(path: seq<string>) {
    |path| >= 2 && path[0] == "pop"
  }

  /** treeSet on a normalised path. */
  function TreeSetPath(e: Fmt, m: TreeMap, path: seq<string>, val: Tree): Result {
    if path == [] then Err(EmptyPath)
    else if IsPopPath(path) then
      if |path| == 2 then Err(NeedsField)
      else Ok(SetKeyedList(e, m, ["pops"], "id", path[1], path[2..], val))
    else if IsBargePath(path) then
      if |path| == 3 then Err(NeedsField)
      else Ok(SetKeyedList(e, m, BARGES, "name", path[2], path[3..], val))
    else Ok(SetNested(e, m, path, val))
  }

  function TreeSet(e: Fmt, m: TreeMap, rawPath: seq<string>, val: Tree): Result {
    TreeSetPath(e, m, NormalizePath(rawPath), val)
  }

  function DeleteNested(m: TreeMap, path: seq<string>): TreeMap
    requires path != []
    decreases |path|
  {
    if |path| == 1 then m - {path[0]}
    else if path[0] in m && m[path[0]].Map? then
      m[path[0] := Map(DeleteNested(m[path[0]].m, path[1..]))]
    else m
  }

  function DropEntries(e: Fmt, items: seq<Tree>, keyField: string, key: string): seq<Tree> {
    if items == [] then []
    else
      var rest := DropEntries(e, items[1..], keyField, key);
      if IsEntry(e, items[0], keyField, key) then rest else [items[0]] + rest
  }

  function TreeDelete(e: Fmt, m: TreeMap, rawPath: seq<string>): Result
    decreases |rawPath|
  {
    var path := NormalizePath(rawPath);
    if path == [] then Err(EmptyPath)
    else if IsPopPath(path) then
      if "pops" !in m || !m["pops"].List? then Ok(m)
      else if |path| == 2 then
        Ok(m["pops" := List(DropEntries(e, m["pops"].items, "id", path[1]))])
      else
        var items := m["pops"].items;
        var i := FindEntry(e, items, "id", path[1]);
        if i == |items| then Ok(m)
        else
          match TreeDelete(e, items[i].m, path[2..])
          case Ok(entry) => Ok(m["pops" := List(items[i := Map(entry)])])
          case Err(error) => Err(error)
    else Ok(DeleteNested(m, path))
  }

  function DeepMerge(dst: TreeMap, src: TreeMap): TreeMap
    decreases Map(src)
  {
    map k | k in dst.Keys + src.Keys ::
      if k !in src then dst[k]
      else if src[k].Map? then Map(DeepMerge(SubMap(dst, k), src[k].m))
      else src[k]
  }

  // ---------------------------------------------------------------- paths

  /** The value at a path of map keys. */
  function Get(m: TreeMap, path: seq<string>): Option<Tree>
    requires path != []
    decreases |path|
  {
    if path[0] !in m then None
    else if |path| == 1 then Some(m[path[0]])
    else if m[path[0]].Map? then Get(m[path[0]].m, path[1..])
    else None
  }

  /** Neither path is a prefix of the other. */
  predicate Incomparable(p: seq<string>, q: seq<string>) {
    !(p <= q) && !(q <= p)
  }

  /** What SetNested leaves at its own path. */
  function Stored(e: Fmt, m: TreeMap, path: seq<string>, val: Tree): Tree
    requires path != []
  {
    var before := Get(m, path);
    if path[|path| - 1] != "roles" then val
    else StoreRoles(e, if before.Some? && before.value.List? then before.value.items else [], val)
  }

  lemma IncomparableTail(p: seq<string>, q: seq<string>)
    requires p != [] && q != [] && p[0] == q[0] && Incomparable(p, q)
    ensures |p| > 1 && |q| > 1 && Incomparable(p[1..], q[1..])
  {
    assert p == [p[0]] + p[1..] && q == [q[0]] + q[1..];
  }

  lemma {:induction false} SetNestedReadsBack(e: Fmt, m: TreeMap, path: seq<string>, val: Tree)
    requires path != []
    ensures Get(SetNested(e, m, path, val), path) == Some(Stored(e, m, path, val))
    decreases |path|
  {
    if |path| > 1 {
      SetNestedReadsBack(e, SubMap(m, path[0]), path[1..], val);
    }
  }

  lemma {:induction false} SetNestedKeepsOthers(e: Fmt, m: TreeMap, path: seq<string>, val: Tree, q: seq<string>)
    requires path != [] && q != [] && Incomparable(path, q)
    ensures Get(SetNested(e, m, path, val), q) == Get(m, q)
    decreases |path|
  {
    if path[0] == q[0] {
      IncomparableTail(path, q);
      SetNestedKeepsOthers(e, SubMap(m, path[0]), path[1..], val, q[1..]);
    }
  }

  /** SetNested replaces one top-level value, which depends only on the value it replaces. */
  lemma SetNestedTouchesHead(e: Fmt, m: TreeMap, m': TreeMap, path: seq<string>, val: Tree)
    requires path != []
    requires SubMap(m, path[0]) == SubMap(m', path[0]) && SubList(m, path[0]) == SubList(m', path[0])
    ensures path[0] in SetNested(e, m, path, val) && path[0] in SetNested(e, m', path, val)
    ensures SetNested(e, m', path, val) == m'[path[0] := SetNested(e, m, path, val)[path[0]]]
  {
  }

  lemma SetNestedCommutesApart(e: Fmt, m: TreeMap, p: seq<string>, v: Tree, q: seq<string>, w: Tree)
    requires p != [] && q != [] && p[0] != q[0]
    ensures SetNested(e, SetNested(e, m, p, v), q, w) == SetNested(e, SetNested(e, m, q, w), p, v)
  {
    SetNestedTouchesHead(e, m, m, p, v);
    SetNestedTouchesHead(e, m, m, q, w);
    SetNestedTouchesHead(e, m, SetNested(e, m, p, v), q, w);
    SetNestedTouchesHead(e, m, SetNested(e, m, q, w), p, v);
  }

  /** Two updates under one head are two updates of the map stored there. */
  lemma SetNestedTwiceUnder(e: Fmt, m: TreeMap, p: seq<string>, v: Tree, q: seq<string>, w: Tree)
    requires |p| > 1 && |q| > 1 && p[0] == q[0]
    ensures SetNested(e, SetNested(e, m, p, v), q, w)
         == m[p[0] := Map(SetNested(e, SetNested(e, SubMap(m, p[0]), p[1..], v), q[1..], w))]
  {
    var once := SetNested(e, m, p, v);
    assert SubMap(once, p[0]) == SetNested(e, SubMap(m, p[0]), p[1..], v);
  }

  lemma {:induction false} SetNestedCommutes(e: Fmt, m: TreeMap, p: seq<string>, v: Tree, q: seq<string>, w: Tree)
    requires p != [] && q != [] && Incomparable(p, q)
    ensures SetNested(e, SetNested(e, m, p, v), q, w) == SetNested(e, SetNested(e, m, q, w), p, v)
    decreases |p|
  {
    if p[0] == q[0] {
      IncomparableTail(p, q);
      SetNestedCommutes(e, SubMap(m, p[0]), p[1..], v, q[1..], w);
      SetNestedTwiceUnder(e, m, p, v, q, w);
      SetNestedTwiceUnder(e, m, q, w, p, v);
    } else {
      SetNestedCommutesApart(e, m, p, v, q, w);
    }
  }

  /** Deleting removes the subtree at the path and nothing beside it. */
  lemma {:induction false} DeleteNestedExact(m: TreeMap, path: seq<string>, q: seq<string>)
    requires path != [] && q != []
    ensures path <= q ==> Get(DeleteNested(m, path), q) == None
    ensures Incomparable(path, q) ==> Get(DeleteNested(m, path), q) == Get(m, q)
    decreases |path|
  {
    if path[0] == q[0] && |path| > 1 && path[0] in m && m[path[0]].Map? {
      if |q| > 1 {
        assert path == [path[0]] + path[1..] && q == [q[0]] + q[1..];
        DeleteNestedExact(m[path[0]].m, path[1..], q[1..]);
      }
    } else if path <= q {
      assert |path| == 1 || path[0] !in m || !m[path[0]].Map?;
    }
  }

  /** The path ends in a map that is there, at a key that it does not have. */
  predicate FreshLeaf(m: TreeMap, path: seq<string>)
    requires path != []
  {
    && Get(m, path) == None
    && (|path| > 1 ==> Get(m, path[..|path| - 1]).Some? && Get(m, path[..|path| - 1]).value.Map?)
  }

  lemma FreshBelow(m: TreeMap, path: seq<string>)
    requires |path| > 1
    ensures FreshLeaf(m, path) <==> path[0] in m && m[path[0]].Map? && FreshLeaf(m[path[0]].m, path[1..])
  {
    assert path[1..][..|path| - 2] == path[..|path| - 1][1..];
  }

  /** Deleting a leaf just set restores the tree iff the leaf was not there and its parent was. */
  lemma {:induction false} DeleteUndoesSet(e: Fmt, m: TreeMap, path: seq<string>, val: Tree)
    requires path != []
    ensures DeleteNested(SetNested(e, m, path, val), path) == m <==> FreshLeaf(m, path)
    decreases |path|
  {
    var k := path[0];
    var r := DeleteNested(SetNested(e, m, path, val), path);
    if |path| == 1 {
      assert k !in r;
    } else {
      FreshBelow(m, path);
      DeleteUndoesSet(e, SubMap(m, k), path[1..], val);
      assert r == m[k := Map(DeleteNested(SetNested(e, SubMap(m, k), path[1..], val), path[1..]))];
      assert r == m ==> k in m && m[k] == r[k];
    }
  }

  // ---------------------------------------------------------------- deepMerge

  lemma {:induction false} MergeIntoEmpty(src: TreeMap)
    ensures DeepMerge(map[], src) == src
    decreases Map(src)
  {
    forall k | k in src && src[k].Map?
      ensures DeepMerge(map[], src[k].m) == src[k].m
    {
      MergeIntoEmpty(src[k].m);
    }
  }

  lemma {:induction false} MergeIdempotent(dst: TreeMap, src: TreeMap)
    ensures DeepMerge(DeepMerge(dst, src), src) == DeepMerge(dst, src)
    decreases Map(src)
  {
    var once := DeepMerge(dst, src);
    forall k | k in src && src[k].Map?
      ensures DeepMerge(SubMap(once, k), src[k].m) == once[k].m
    {
      MergeIdempotent(SubMap(dst, k), src[k].m);
    }
  }

  /** A non-map value of `src` sits on the way to `path`. */
  predicate Blocked(src: TreeMap, path: seq<string>)
    requires path != []
    decreases |path|
  {
    path[0] in src && |path| > 1 && (!src[path[0]].Map? || Blocked(src[path[0]].m, path[1..]))
  }

  function SubMapAt(m: TreeMap, path: seq<string>): TreeMap
    requires path != []
  {
    var t := Get(m, path);
    if t.Some? && t.value.Map? then t.value.m else map[]
  }

  lemma {:induction false} SubMapAtStep(m: TreeMap, path: seq<string>)
    requires |path| > 1
    ensures SubMapAt(m, path) == SubMapAt(SubMap(m, path[0]), path[1..])
  {
  }

  /** What a merge leaves at every path: the source's leaf where it has one, the merge of both
      maps where it has a map, and the destination's value where the source reaches nothing. */
  lemma {:induction false} MergeAtPath(dst: TreeMap, src: TreeMap, path: seq<string>)
    requires path != []
    ensures var r := Get(DeepMerge(dst, src), path);
            match Get(src, path)
            case Some(Map(sm)) => r == Some(Map(DeepMerge(SubMapAt(dst, path), sm)))
            case Some(t) => r == Some(t)
            case None => r == if Blocked(src, path) then None else Get(dst, path)
    decreases |path|
  {
    var k := path[0];
    if |path| > 1 {
      SubMapAtStep(dst, path);
      if k in src && src[k].Map? {
        MergeAtPath(SubMap(dst, k), src[k].m, path[1..]);
      }
    }
  }

  /** Every key of `d`, at every depth, is one of `s`. */
  predicate Swallowed(d: TreeMap, s: TreeMap)
    decreases Map(s)
  {
    d.Keys <= s.Keys && forall k | k in s && s[k].Map? :: Swallowed(SubMap(d, k), s[k].m)
  }

  /** Merging leaves exactly the source iff the destination has nothing else. */
  lemma {:induction false} MergeIsSource(d: TreeMap, s: TreeMap)
    ensures DeepMerge(d, s) == s <==> Swallowed(d, s)
    decreases Map(s)
  {
    var r := DeepMerge(d, s);
    forall k | k in s && s[k].Map? ensures r[k] == s[k] <==> Swallowed(SubMap(d, k), s[k].m) {
      MergeIsSource(SubMap(d, k), s[k].m);
    }
    if r == s {
      assert r.Keys == s.Keys;
    }
    if Swallowed(d, s) {
      assert forall k | k in s :: r[k] == s[k];
    }
  }

  /** The file's top-level values win as they are iff every map among them already holds all that
      the tree has below it. */
  lemma MergeIsShallowExactly(d: TreeMap, s: TreeMap)
    ensures DeepMerge(d, s) == d + s <==> forall k | k in s && s[k].Map? :: Swallowed(SubMap(d, k), s[k].m)
  {
    var r := DeepMerge(d, s);
    forall k | k in s && s[k].Map? ensures r[k] == s[k] <==> Swallowed(SubMap(d, k), s[k].m) {
      MergeIsSource(SubMap(d, k), s[k].m);
    }
    assert r.Keys == (d + s).Keys;
    assert r == d + s ==> forall k | k in s :: r[k] == (d + s)[k];
    assert (forall k | k in d + s :: r[k] == (d + s)[k]) ==> r == d + s;
  }

  /** It fails as soon as the tree has a field that the file's map of the same name lacks. */
  lemma MergeKeepsDeepFields()
    ensures exists d: TreeMap, s: TreeMap :: DeepMerge(d, s) != d + s
  {
    var d: TreeMap := map["site" := Map(map["domain" := Leaf(Str("a"))])];
    var s: TreeMap := map["site" := Map(map[])];
    assert "domain" in SubMap(d, "site") && s["site"].Map?;
    assert !Swallowed(SubMap(d, "site"), s["site"].m);
    MergeIsShallowExactly(d, s);
  }

  // ---------------------------------------------------------------- deleting in keyed lists

  /** `at` lists ascending positions of `items`. */
  ghost predicate Positions(at: seq<nat>, n: nat) {
    (forall i | 0 <= i < |at| :: at[i] < n) && (forall i, j | 0 <= i < j < |at| :: at[i] < at[j])
  }

  /** The positions of the items that are not entries of the key. */
  function KeptAt(e: Fmt, items: seq<Tree>, keyField: string, key: string): seq<nat> {
    if items == [] then []
    else (if IsEntry(e, items[0], keyField, key) then [] else [0]) + Shifted(KeptAt(e, items[1..], keyField, key))
  }

  lemma {:induction false} KeptPositions(e: Fmt, items: seq<Tree>, keyField: string, key: string)
    ensures Positions(KeptAt(e, items, keyField, key), |items|)
  {
    if items != [] {
      KeptPositions(e, items[1..], keyField, key);
      ShiftedPositions(KeptAt(e, items[1..], keyField, key), |items| - 1);
    }
  }

  lemma {:induction false} KeptMembers(e: Fmt, items: seq<Tree>, keyField: string, key: string, i: nat)
    requires i < |items|
    ensures i in KeptAt(e, items, keyField, key) <==> !IsEntry(e, items[i], keyField, key)
  {
    var rest := KeptAt(e, items[1..], keyField, key);
    KeptPositions(e, items[1..], keyField, key);
    ShiftedPositions(rest, |items| - 1);
    if i > 0 {
      KeptMembers(e, items[1..], keyField, key, i - 1);
      assert i - 1 + 1 in Shifted(rest) <==> i - 1 in rest;
    }
  }

  lemma {:induction false} KeptItems(e: Fmt, items: seq<Tree>, keyField: string, key: string)
    ensures var at, r := KeptAt(e, items, keyField, key), DropEntries(e, items, keyField, key);
            |r| == |at| && forall i | 0 <= i < |r| :: at[i] < |items| && r[i] == items[at[i]]
  {
    if items != [] {
      KeptItems(e, items[1..], keyField, key);
    }
  }

  /** Deleting a key keeps exactly the items that are not its entries, in order: `at` lists their
      positions, ascending, and the i-th of the result is the item at the i-th of them. */
  lemma DropEntriesExact(e: Fmt, items: seq<Tree>, keyField: string, key: string)
    ensures var at, r := KeptAt(e, items, keyField, key), DropEntries(e, items, keyField, key);
            && Positions(at, |items|)
            && (forall i | 0 <= i < |items| :: i in at <==> !IsEntry(e, items[i], keyField, key))
            && |r| == |at| && forall i | 0 <= i < |r| :: r[i] == items[at[i]]
  {
    KeptPositions(e, items, keyField, key);
    KeptItems(e, items, keyField, key);
    forall i | 0 <= i < |items|
      ensures i in KeptAt(e, items, keyField, key) <==> !IsEntry(e, items[i], keyField, key)
    {
      KeptMembers(e, items, keyField, key, i);
    }
  }

  function Shifted(at: seq<nat>): (r: seq<nat>)
    ensures |r| == |at| && forall i | 0 <= i < |r| :: r[i] == at[i] + 1
  {
    seq(|at|, i requires 0 <= i < |at| => at[i] + 1)
  }

  lemma ShiftedPositions(at: seq<nat>, n: nat)
    requires Positions(at, n)
    ensures Positions(Shifted(at), n + 1) && Positions([0] + Shifted(at), n + 1)
    ensures forall x: nat :: x + 1 in Shifted(at) <==> x in at
    ensures 0 !in Shifted(at)
  {
    var up := Shifted(at);
    forall x: nat ensures x + 1 in up <==> x in at {
      if x in at {
        var i :| 0 <= i < |at| && at[i] == x;
        assert up[i] == x + 1;
      }
    }
  }

  /** Deleting a whole pop: no item of `pops` is an entry of that id any more, every other item stays,
      in order, and so does every other key of the tree. `at` lists the positions of the items that
      stay. */
  lemma DeletePop(e: Fmt, m: TreeMap, rawPath: seq<string>)
    requires |rawPath| == 2 && IsPopPath(NormalizePath(rawPath))
    ensures TreeDelete(e, m, rawPath).Ok?
    ensures var m' := TreeDelete(e, m, rawPath).tree;
            && m'.Keys == m.Keys && (forall k | k in m && k != "pops" :: m'[k] == m[k])
            && ("pops" in m && !m["pops"].List? ==> m' == m)
    ensures "pops" in m && m["pops"].List? ==>
              var key := NormalizeKey(rawPath[1]);
              var items := m["pops"].items;
              var at := KeptAt(e, items, "id", key);
              var t := TreeDelete(e, m, rawPath).tree["pops"];
              && t.List? && |t.items| == |at| && Positions(at, |items|)
              && (forall i | 0 <= i < |items| :: i in at <==> !IsEntry(e, items[i], "id", key))
              && (forall i | 0 <= i < |at| :: t.items[i] == items[at[i]] && !IsEntry(e, t.items[i], "id", key))
  {
    var key := NormalizeKey(rawPath[1]);
    if "pops" in m && m["pops"].List? {
      var items := m["pops"].items;
      var at := KeptAt(e, items, "id", key);
      DropEntriesExact(e, items, "id", key);
      forall i | 0 <= i < |at| ensures !IsEntry(e, items[at[i]], "id", key) {
        assert at[i] in at;
      }
    }
  }

  /** Deleting a field below a pop changes only the first entry of that id, by the deletion below
      it; every other item and every other key of the tree stays. */
  lemma DeleteInPop(e: Fmt, m: TreeMap, rawPath: seq<string>)
    requires |rawPath| > 2 && IsPopPath(NormalizePath(rawPath)) && TreeDelete(e, m, rawPath).Ok?
    ensures var m' := TreeDelete(e, m, rawPath).tree;
            && m'.Keys == m.Keys && (forall k | k in m && k != "pops" :: m'[k] == m[k])
            && ("pops" in m && !m["pops"].List? ==> m' == m)
    ensures "pops" in m && m["pops"].List? ==>
              var items := m["pops"].items;
              var i := FindEntry(e, items, "id", NormalizeKey(rawPath[1]));
              var t' := TreeDelete(e, m, rawPath).tree["pops"];
              && t'.List? && |t'.items| == |items|
              && (forall j | 0 <= j < |items| && j != i :: t'.items[j] == items[j])
              && (i < |items| ==> TreeDelete(e, items[i].m, NormalizePath(rawPath)[2..]) == Ok(t'.items[i].m) && t'.items[i].Map?)
  {
  }
}
