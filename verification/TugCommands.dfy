/** `set` followed by `delete` of the same path, as commands: where the deletion finds what was set. */
module TugCommands {
  import opened Text
  import opened TugTree

  // ---------------------------------------------------------------- normalised twice

  lemma FirstAliases()
    ensures forall k | k in ["kernel_mesh", "public_scheme", "token_env", "node_id"] :: NormalizeKey(k) == k
  {
  }

  lemma MoreAliases()
    ensures forall k | k in ["data_dir", "fleet_id", "hub_pop", "apiVersion"] :: NormalizeKey(k) == k
  {
  }

  lemma LastAliases()
    ensures forall k | k in ["ultimate_db", "ultimate_keystore", "stack_overrides"] :: NormalizeKey(k) == k
  {
  }

  /** An alias stands for one of eleven keys. */
  lemma AliasStandsFor(p: string)
    requires NormalizeKey(p) != TrimSpace(p)
    ensures NormalizeKey(p) in ["kernel_mesh", "public_scheme", "token_env", "node_id"]
         || NormalizeKey(p) in ["data_dir", "fleet_id", "hub_pop", "apiVersion"]
         || NormalizeKey(p) in ["ultimate_db", "ultimate_keystore", "stack_overrides"]
  {
  }

  lemma NormalizeKeyTwice(p: string)
    ensures NormalizeKey(NormalizeKey(p)) == NormalizeKey(p)
  {
    TrimSpaceIsTrimmed(p);
    TrimSpaceOfTrimmed(TrimSpace(p));
    if NormalizeKey(p) != TrimSpace(p) {
      AliasStandsFor(p);
      FirstAliases();
      MoreAliases();
      LastAliases();
    }
  }

  lemma NormalizeTail(path: seq<string>, i: nat)
    requires NormalizePath(path) == path && i <= |path|
    ensures NormalizePath(path[i..]) == path[i..]
  {
    forall j | 0 <= j < |path| - i ensures NormalizeKey(path[i..][j]) == path[i..][j] {
      assert path[i..][j] == path[i + j] == NormalizePath(path)[i + j];
    }
  }

  lemma NormalizeTwice(path: seq<string>)
    ensures NormalizePath(NormalizePath(path)) == NormalizePath(path)
  {
    forall i | 0 <= i < |path| ensures NormalizeKey(NormalizePath(path)[i]) == NormalizePath(path)[i] {
      NormalizeKeyTwice(path[i]);
    }
  }

  // ---------------------------------------------------------------- entries of keyed lists

  /** The value at `rest` below the entry of the key. */
  function EntryGet(e: Fmt, items: seq<Tree>, keyField: string, key: string, rest: seq<string>): Option<Tree>
    requires rest != []
  {
    var i := FindEntry(e, items, keyField, key);
    if i < |items| then Get(items[i].m, rest) else None
  }

  /** The value at a path, as `set` and its keyed lists understand the path. */
  function Lookup(e: Fmt, m: TreeMap, path: seq<string>): Option<Tree>
    requires path != []
  {
    if IsPopPath(path) && |path| > 2 then EntryGet(e, SubList(m, "pops"), "id", path[1], path[2..])
    else if IsBargePath(path) && |path| > 3 then
      EntryGet(e, SubList(SubMap(m, "stack"), "barges"), "name", path[2], path[3..])
    else Get(m, path)
  }

  /** The path sets the very field that names its entry. */
  predicate Renames(path: seq<string>) {
    || (IsPopPath(path) && |path| > 2 && path[2] == "id")
    || (IsBargePath(path) && |path| > 3 && path[3] == "name")
  }

  lemma FindAt(e: Fmt, items: seq<Tree>, keyField: string, key: string, i: nat)
    requires i < |items| && IsEntry(e, items[i], keyField, key)
    requires forall j | 0 <= j < i :: !IsEntry(e, items[j], keyField, key)
    ensures FindEntry(e, items, keyField, key) == i
  {
  }

  /** After an update below an entry that leaves its name, the entry is found where it was, or at the
      end. */
  lemma FoundAfterSet(e: Fmt, items: seq<Tree>, keyField: string, key: string, rest: seq<string>, val: Tree) returns (i: nat)
    requires rest != [] && rest[0] != keyField
    ensures var items' := SetKeyedItems(e, items, keyField, key, rest, val);
            && i < |items'| && FindEntry(e, items', keyField, key) == i && IsEntry(e, items'[i], keyField, key)
            && Get(items'[i].m, rest).Some?
  {
    i := FindEntry(e, items, keyField, key);
    var items' := SetKeyedItems(e, items, keyField, key, rest, val);
    var before := if i < |items| then items[i].m else map[keyField := Leaf(Str(key))];
    SetNestedReadsBack(e, before, rest, val);
    SetNestedTouchesHead(e, before, before, rest, val);
    assert items'[i] == Map(SetNested(e, before, rest, val));
    assert KeyText(e, items'[i].m, keyField) == KeyText(e, before, keyField);
    FindAt(e, items', keyField, key, i);
  }

  /** Replacing an entry by one of the same name. */
  lemma FoundAfterChange(e: Fmt, items: seq<Tree>, keyField: string, key: string, rest: seq<string>, i: nat, entry: TreeMap)
    requires rest != [] && i < |items| && FindEntry(e, items, keyField, key) == i && IsEntry(e, Map(entry), keyField, key)
    ensures EntryGet(e, items[i := Map(entry)], keyField, key, rest) == Get(entry, rest)
  {
    FindAt(e, items[i := Map(entry)], keyField, key, i);
  }

  // ---------------------------------------------------------------- what a deletion reaches

  /** The paths for which `delete` goes where `set` goes: not the entries of `stack barge`, and not a
      path below a pop that starts like a pop's own. */
  predicate Deletable(path: seq<string>) {
    !IsBargePath(path) && !(IsPopPath(path) && IsPopPath(path[2..]))
  }

  /** A deletion below `stack barge` never touches the list of barges. */
  lemma DeleteMissesBarges(e: Fmt, m: TreeMap, rawPath: seq<string>)
    requires IsBargePath(NormalizePath(rawPath))
    ensures TreeDelete(e, m, rawPath).Ok?
    ensures SubList(SubMap(TreeDelete(e, m, rawPath).tree, "stack"), "barges") == SubList(SubMap(m, "stack"), "barges")
  {
    DeleteNestedBeside(SubMap(m, "stack"), NormalizePath(rawPath)[1..], "barges");
  }

  lemma DeleteNestedBeside(m: TreeMap, path: seq<string>, k: string)
    requires path != [] && path[0] != k
    ensures k in m <==> k in DeleteNested(m, path)
    ensures k in m ==> DeleteNested(m, path)[k] == m[k]
  {
  }

  /** A deletion on an entry, by a normal path that does not start with key `k`. */
  lemma DeleteBeside(e: Fmt, m: TreeMap, path: seq<string>, k: string)
    requires path != [] && NormalizePath(path) == path && path[0] != k && k != "pops"
    ensures TreeDelete(e, m, path).Ok?
    ensures var m' := TreeDelete(e, m, path).tree;
            (k in m <==> k in m') && (k in m ==> m'[k] == m[k])
    ensures !IsPopPath(path) ==> TreeDelete(e, m, path) == Ok(DeleteNested(m, path))
    decreases |path|
  {
    if IsPopPath(path) {
      DeleteIsOk(e, m, path);
      if |path| == 2 {
        DeletePop(e, m, path);
      } else {
        DeleteInPop(e, m, path);
      }
    } else {
      DeleteNestedBeside(m, path, k);
    }
  }

  lemma {:induction false} DeleteIsOk(e: Fmt, m: TreeMap, rawPath: seq<string>)
    requires rawPath != []
    ensures TreeDelete(e, m, rawPath).Ok?
    decreases |rawPath|
  {
    var path := NormalizePath(rawPath);
    if IsPopPath(path) && |path| > 2 && "pops" in m && m["pops"].List? {
      var i := FindEntry(e, m["pops"].items, "id", path[1]);
      if i < |m["pops"].items| {
        DeleteIsOk(e, m["pops"].items[i].m, path[2..]);
      }
    }
  }

  /** What the deletion leaves at its own path inside an entry. */
  lemma DeleteInEntry(e: Fmt, entry: TreeMap, rest: seq<string>)
    requires rest != [] && NormalizePath(rest) == rest && rest[0] != "id"
    ensures TreeDelete(e, entry, rest).Ok?
    ensures var entry' := TreeDelete(e, entry, rest).tree;
            && KeyText(e, entry', "id") == KeyText(e, entry, "id")
            && Get(entry', rest) == if IsPopPath(rest) then Get(entry, rest) else None
  {
    DeleteBeside(e, entry, rest, "id");
    if IsPopPath(rest) {
      SamePopHead(e, entry, rest);
    } else {
      DeleteNestedExact(entry, rest, rest);
    }
  }

  lemma SamePopHead(e: Fmt, entry: TreeMap, rest: seq<string>)
    requires NormalizePath(rest) == rest && IsPopPath(rest) && TreeDelete(e, entry, rest).Ok?
    ensures Get(TreeDelete(e, entry, rest).tree, rest) == Get(entry, rest)
  {
    if |rest| == 2 {
      DeletePop(e, entry, rest);
    } else {
      DeleteInPop(e, entry, rest);
    }
  }

  lemma PopSet(e: Fmt, m: TreeMap, path: seq<string>, val: Tree)
    requires NormalizePath(path) == path && IsPopPath(path) && |path| > 2
    ensures TreeSet(e, m, path, val)
         == Ok(m["pops" := List(SetKeyedItems(e, SubList(m, "pops"), "id", path[1], path[2..], val))])
  {
  }

  lemma PopDelete(e: Fmt, m: TreeMap, path: seq<string>, items: seq<Tree>, i: nat, entry: TreeMap)
    requires NormalizePath(path) == path && IsPopPath(path) && |path| > 2
    requires FindEntry(e, items, "id", path[1]) == i < |items| && TreeDelete(e, items[i].m, path[2..]) == Ok(entry)
    ensures TreeDelete(e, m["pops" := List(items)], path) == Ok(m["pops" := List(items[i := Map(entry)])])
  {
    var t := m["pops" := List(items)];
    assert t["pops" := List(items[i := Map(entry)])] == m["pops" := List(items[i := Map(entry)])];
  }

  /** The deletion right after a set below a pop. */
  lemma PopSetAndDeleted(e: Fmt, m: TreeMap, path: seq<string>, val: Tree) returns (items: seq<Tree>, i: nat, entry: TreeMap)
    requires NormalizePath(path) == path && IsPopPath(path) && |path| > 2 && path[2] != "id"
    ensures items == SetKeyedItems(e, SubList(m, "pops"), "id", path[1], path[2..], val) && i < |items|
    ensures FindEntry(e, items, "id", path[1]) == i && Get(items[i].m, path[2..]).Some?
    ensures TreeDelete(e, items[i].m, path[2..]) == Ok(entry) && IsEntry(e, Map(entry), "id", path[1])
    ensures Get(entry, path[2..]) == if IsPopPath(path[2..]) then Get(items[i].m, path[2..]) else None
    ensures TreeSet(e, m, path, val) == Ok(m["pops" := List(items)])
    ensures TreeDelete(e, m["pops" := List(items)], path) == Ok(m["pops" := List(items[i := Map(entry)])])
  {
    items := SetKeyedItems(e, SubList(m, "pops"), "id", path[1], path[2..], val);
    PopSet(e, m, path, val);
    i := FoundAfterSet(e, SubList(m, "pops"), "id", path[1], path[2..], val);
    NormalizeTail(path, 2);
    DeleteInEntry(e, items[i].m, path[2..]);
    entry := TreeDelete(e, items[i].m, path[2..]).tree;
    PopDelete(e, m, path, items, i, entry);
  }

  lemma PopDeleted(e: Fmt, m: TreeMap, path: seq<string>, val: Tree)
    requires NormalizePath(path) == path && IsPopPath(path) && |path| > 2 && path[2] != "id"
    ensures TreeSet(e, m, path, val).Ok? && TreeDelete(e, TreeSet(e, m, path, val).tree, path).Ok?
    ensures var t := TreeSet(e, m, path, val).tree;
            && Lookup(e, t, path).Some?
            && Lookup(e, TreeDelete(e, t, path).tree, path) == if IsPopPath(path[2..]) then Lookup(e, t, path) else None
  {
    var items, i, entry := PopSetAndDeleted(e, m, path, val);
    FoundAfterChange(e, items, "id", path[1], path[2..], i, entry);
  }

  lemma BargeKept(e: Fmt, m: TreeMap, path: seq<string>, val: Tree)
    requires NormalizePath(path) == path && IsBargePath(path) && |path| > 3 && path[3] != "name"
    ensures TreeSet(e, m, path, val).Ok? && TreeDelete(e, TreeSet(e, m, path, val).tree, path).Ok?
    ensures var t := TreeSet(e, m, path, val).tree;
            && Lookup(e, t, path).Some? && Lookup(e, TreeDelete(e, t, path).tree, path) == Lookup(e, t, path)
  {
    var t := TreeSet(e, m, path, val).tree;
    var bs := SubList(SubMap(m, "stack"), "barges");
    var i := FoundAfterSet(e, bs, "name", path[2], path[3..], val);
    assert BARGES[1..] == ["barges"];
    assert SubList(SubMap(t, "stack"), "barges") == SetKeyedItems(e, bs, "name", path[2], path[3..], val);
    DeleteMissesBarges(e, t, path);
  }

  /** Exactly which paths a deletion clears: after a set, whatever was there before, the value is
      found at its path, and the deletion of the same path removes it iff the path is deletable. In
      the other cases the deletion leaves it as it is. */
  lemma DeleteAfterSet(e: Fmt, m: TreeMap, rawPath: seq<string>, val: Tree)
    requires TreeSet(e, m, rawPath, val).Ok? && !Renames(NormalizePath(rawPath))
    ensures rawPath != [] && TreeDelete(e, TreeSet(e, m, rawPath, val).tree, rawPath).Ok?
    ensures var path := NormalizePath(rawPath);
            var t := TreeSet(e, m, rawPath, val).tree;
            var after := Lookup(e, TreeDelete(e, t, rawPath).tree, path);
            && Lookup(e, t, path).Some?
            && (after == None <==> Deletable(path))
            && (!Deletable(path) ==> after == Lookup(e, t, path))
  {
    var path := NormalizePath(rawPath);
    NormalizeTwice(rawPath);
    if IsPopPath(path) {
      PopDeleted(e, m, path, val);
    } else if IsBargePath(path) {
      BargeKept(e, m, path, val);
    } else {
      SetNestedReadsBack(e, m, path, val);
      DeleteNestedExact(SetNested(e, m, path, val), path, path);
    }
    SameDelete(e, TreeSet(e, m, rawPath, val).tree, rawPath);
  }

  lemma SameDelete(e: Fmt, m: TreeMap, rawPath: seq<string>)
    ensures TreeDelete(e, m, rawPath) == TreeDelete(e, m, NormalizePath(rawPath))
  {
    NormalizeTwice(rawPath);
  }

  // ---------------------------------------------------------------- a deletion that undoes a set

  /** The leaf of the path is not there, and all above it is. */
  predicate FreshPlace(e: Fmt, m: TreeMap, path: seq<string>)
    requires path != []
  {
    if IsPopPath(path) && |path| > 2 then
      && "pops" in m && m["pops"].List?
      && var i := FindEntry(e, m["pops"].items, "id", path[1]);
         i < |m["pops"].items| && FreshLeaf(m["pops"].items[i].m, path[2..])
    else FreshLeaf(m, path)
  }

  lemma PopUndone(e: Fmt, m: TreeMap, path: seq<string>, val: Tree)
    requires NormalizePath(path) == path && IsPopPath(path) && |path| > 2 && path[2] != "id" && !IsPopPath(path[2..])
    ensures TreeSet(e, m, path, val).Ok?
    ensures TreeDelete(e, TreeSet(e, m, path, val).tree, path) == Ok(m) <==> FreshPlace(e, m, path)
  {
    var items, i, entry := PopSetAndDeleted(e, m, path, val);
    NormalizeTail(path, 2);
    DeleteBeside(e, items[i].m, path[2..], "id");
    SameList(m, items[i := Map(entry)]);
    var before := SubList(m, "pops");
    if FindEntry(e, before, "id", path[1]) < |before| {
      FindSame(e, before, path[1], path[2..], val, i);
      EntryUndone(e, before, items, i, path[2..], val, entry);
    }
  }

  lemma SameList(m: TreeMap, items: seq<Tree>)
    ensures m["pops" := List(items)] == m <==> "pops" in m && m["pops"] == List(items)
  {
    assert m["pops" := List(items)]["pops"] == List(items);
  }

  lemma EntryUndone(
      e: Fmt, before: seq<Tree>, items: seq<Tree>, i: nat, rest: seq<string>, val: Tree, entry: TreeMap)
    requires rest != [] && i < |before| && before[i].Map?
    requires items == before[i := Map(SetNested(e, before[i].m, rest, val))] && entry == DeleteNested(items[i].m, rest)
    ensures items[i := Map(entry)] == before <==> FreshLeaf(before[i].m, rest)
  {
    DeleteUndoesSet(e, before[i].m, rest, val);
    assert items[i := Map(entry)] == before[i := Map(entry)];
    assert before[i := Map(entry)] == before <==> before[i] == Map(entry);
  }

  lemma FindSame(e: Fmt, items: seq<Tree>, key: string, rest: seq<string>, val: Tree, i: nat)
    requires rest != [] && rest[0] != "id" && FindEntry(e, items, "id", key) < |items|
    requires FindEntry(e, SetKeyedItems(e, items, "id", key, rest, val), "id", key) == i
    ensures i == FindEntry(e, items, "id", key)
    ensures SetKeyedItems(e, items, "id", key, rest, val) == items[i := Map(SetNested(e, items[i].m, rest, val))]
  {
    var found := FoundAfterSet(e, items, "id", key, rest, val);
    var j := FindEntry(e, items, "id", key);
    var before := items[j].m;
    SetNestedTouchesHead(e, before, before, rest, val);
    assert KeyText(e, SetNested(e, before, rest, val), "id") == KeyText(e, before, "id");
    FindAt(e, SetKeyedItems(e, items, "id", key, rest, val), "id", key, j);
  }

  /** Where deletion reaches what was set, it gives back the tree exactly when the leaf was new and
      all above it was there. */
  lemma DeleteUndoesSetExactly(e: Fmt, m: TreeMap, rawPath: seq<string>, val: Tree)
    requires TreeSet(e, m, rawPath, val).Ok? && !Renames(NormalizePath(rawPath)) && Deletable(NormalizePath(rawPath))
    ensures rawPath != []
    ensures TreeDelete(e, TreeSet(e, m, rawPath, val).tree, rawPath) == Ok(m) <==> FreshPlace(e, m, NormalizePath(rawPath))
  {
    var path := NormalizePath(rawPath);
    NormalizeTwice(rawPath);
    SameDelete(e, TreeSet(e, m, rawPath, val).tree, rawPath);
    if IsPopPath(path) {
      PopUndone(e, m, path, val);
    } else {
      DeleteUndoesSet(e, m, path, val);
    }
  }

  // ---------------------------------------------------------------- roles

  /** Some role of the list reads as the value does. */
  predicate HasRole(e: Fmt, roles: seq<Tree>, val: Tree) {
    exists i :: 0 <= i < |roles| && Sprint(e, roles[i]) == Sprint(e, val)
  }

  /** Setting a path that ends in `roles`: a list replaces what was there. A single value leaves a list
      that holds it, after all the earlier roles in their order, once: nothing is added when it was there
      already, and otherwise its text is, at the end. */
  lemma RolesAccumulate(e: Fmt, m: TreeMap, path: seq<string>, val: Tree)
    requires path != [] && path[|path| - 1] == "roles"
    ensures val.List? ==> Get(SetNested(e, m, path, val), path) == Some(val)
    ensures !val.List? ==>
              var before := if Get(m, path).Some? && Get(m, path).value.List? then Get(m, path).value.items else [];
              var after := Get(SetNested(e, m, path, val), path);
              && after.Some? && after.value.List? && before <= after.value.items
              && HasRole(e, after.value.items, val)
              && (HasRole(e, before, val) ==> after.value.items == before)
              && (!HasRole(e, before, val) ==> after.value.items == before + [Leaf(Str(Sprint(e, val)))])
  {
    SetNestedReadsBack(e, m, path, val);
    if !val.List? {
      var before := if Get(m, path).Some? && Get(m, path).value.List? then Get(m, path).value.items else [];
      var more := before + [Leaf(Str(Sprint(e, val)))];
      assert Sprint(e, more[|before|]) == Sprint(e, val);
    }
  }
}
