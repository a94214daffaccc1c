/** The printer as it runs: keys of a map are collected in any order and sorted in place,
    fields of a list entry are visited in any order. */
module TugPrinter {
  import opened Text
  import opened TugTree
  import opened TugSyntax
  import opened TugPrint
  import opened TugRoundTrip
  import opened TugStrip

  predicate Ascending(keys: seq<string>) {
    forall i, j | 0 <= i < j < |keys| :: !Less(keys[j], keys[i])
  }

  lemma SwapKeepsMultiset(s: seq<string>, i: nat, j: nat)
    requires i < j < |s|
    ensures multiset(s[i := s[j]][j := s[i]]) == multiset(s)
  {
    var mid := s[i + 1..j];
    assert s == s[..i] + [s[i]] + mid + [s[j]] + s[j + 1..];
    assert s[i := s[j]][j := s[i]] == s[..i] + [s[j]] + mid + [s[i]] + s[j + 1..];
  }

  /** No key from `from` up to `to` is smaller than `x`. */
  predicate NoneSmaller(s: seq<string>, from: nat, to: nat, x: string)
    requires to <= |s|
  {
    forall q | from <= q < to :: !Less(s[q], x)
  }

  lemma SmallerKeeps(s: seq<string>, from: nat, to: nat, x: string, y: string)
    requires to <= |s| && NoneSmaller(s, from, to, x) && Less(y, x)
    ensures NoneSmaller(s, from, to, y) && !Less(x, y)
  {
    LessTotal(x, y);
    forall q | from <= q < to ensures !Less(s[q], y) {
      if Less(s[q], y) {
        LessTransitive(s[q], y, x);
      }
    }
  }

  /** From `i` on, `s` has only keys that `t` has from `i` on. */
  predicate DrawnFrom(s: seq<string>, t: seq<string>, i: nat) {
    |s| == |t| && i <= |s| && forall q | i <= q < |s| :: s[q] in t[i..]
  }

  lemma SwapDrawn(s: seq<string>, t: seq<string>, i: nat, j: nat, s': seq<string>)
    requires DrawnFrom(s, t, i) && i < j < |s| && s' == s[i := s[j]][j := s[i]]
    ensures DrawnFrom(s', t, i)
  {
  }

  method Swap(keys: array<string>, i: nat, j: nat)
    requires i < j < keys.Length
    modifies keys
    ensures multiset(keys[..]) == multiset(old(keys[..]))
    ensures keys[..] == old(keys[..])[i := old(keys[j])][j := old(keys[i])]
  {
    ghost var s := keys[..];
    SwapKeepsMultiset(s, i, j);
    keys[i], keys[j] := keys[j], keys[i];
    assert keys[..] == s[i := s[j]][j := s[i]];
  }

  /** The inner loop of the exchange sort: the least of the keys from `i` on moves to `i`. */
  method SelectInto(keys: array<string>, i: nat)
    requires i < keys.Length
    modifies keys
    ensures multiset(keys[..]) == multiset(old(keys[..]))
    ensures keys[..i] == old(keys[..i])
    ensures DrawnFrom(keys[..], old(keys[..]), i)
    ensures NoneSmaller(keys[..], i + 1, keys.Length, keys[i])
  {
    for j := i + 1 to keys.Length
      invariant multiset(keys[..]) == multiset(old(keys[..]))
      invariant keys[..i] == old(keys[..i])
      invariant DrawnFrom(keys[..], old(keys[..]), i)
      invariant NoneSmaller(keys[..], i + 1, j, keys[i])
    {
      if Less(keys[j], keys[i]) {
        SmallerKeeps(keys[..], i + 1, j, keys[i], keys[j]);
        ghost var s := keys[..];
        Swap(keys, i, j);
        SwapDrawn(s, old(keys[..]), i, j, keys[..]);
      }
    }
  }

  /** The exchange sort of the printer. */
  method SortKeys(keys: array<string>)
    modifies keys
    ensures multiset(keys[..]) == multiset(old(keys[..]))
    ensures Ascending(keys[..])
  {
    for i := 0 to keys.Length
      invariant multiset(keys[..]) == multiset(old(keys[..]))
      invariant forall p, q | 0 <= p < i && p < q < keys.Length :: !Less(keys[q], keys[p])
    {
      ghost var s := keys[..];
      SelectInto(keys, i);
      assert forall p | 0 <= p < i :: keys[p] == keys[..i][p] == s[p];
      assert keys[..][i..] == keys[i..];
      forall p, q | 0 <= p <= i && p < q < keys.Length ensures !Less(keys[q], keys[p]) {
        if p < i && i <= q {
          assert keys[..][q] in s[i..];
          var r :| i <= r < keys.Length && keys[q] == s[r];
        } else if p == i {
          assert !Less(keys[..][q], keys[i]);
        }
      }
    }
  }

  predicate Distinct(keys: seq<string>) {
    forall i, j | 0 <= i < j < |keys| :: keys[i] != keys[j]
  }

  lemma SortedStaysDistinct(a: seq<string>, b: seq<string>)
    requires multiset(a) == multiset(b) && Distinct(a)
    ensures Distinct(b) && forall k :: k in a <==> k in b
  {
    assert forall k :: (k in a <==> k in multiset(a)) && (k in b <==> k in multiset(b));
    forall i, j | 0 <= i < j < |b| ensures b[i] != b[j] {
      TwiceInMultiset(b, i, j);
      DistinctOnce(a, b[i]);
    }
  }

  lemma {:induction false} DistinctOnce(a: seq<string>, k: string)
    requires Distinct(a)
    ensures multiset(a)[k] <= 1
  {
    if a != [] {
      var n := |a| - 1;
      DistinctOnce(a[..n], k);
      assert a == a[..n] + [a[n]];
      assert a[n] !in multiset(a[..n]);
    }
  }

  /** The keys of a map, in ascending order. */
  method SortedKeys(m: TreeMap) returns (keys: seq<string>)
    ensures Ascending(keys) && Distinct(keys)
    ensures forall k :: k in keys <==> k in m
  {
    var left := m.Keys;
    var found: seq<string> := [];
    while left != {}
      invariant left <= m.Keys && Distinct(found)
      invariant forall k :: k in found <==> k in m && k !in left
      decreases left
    {
      var k :| k in left;
      found := found + [k];
      left := left - {k};
    }
    var a := new string[|found|](i requires 0 <= i < |found| => found[i]);
    assert a[..] == found;
    SortKeys(a);
    keys := a[..];
    SortedStaysDistinct(found, keys);
  }

  lemma TwiceInMultiset(s: seq<string>, i: nat, j: nat)
    requires i < j < |s|
    ensures s[i] == s[j] ==> multiset(s)[s[i]] >= 2
  {
    assert s == s[..i] + [s[i]] + s[i + 1..j] + [s[j]] + s[j + 1..];
  }

  // ---------------------------------------------------------------- growing a view field by field

  lemma UpdateBesideHead(k: string, v: Tree, rest: TreeMap, k': string, v': Tree)
    ensures map[k := v] + rest[k' := v'] == (map[k := v] + rest)[k' := v']
  {
  }

  lemma {:induction false} ViewSnoc(fields: seq<Field>, f: Field)
    requires WellKeyedFields(fields) && WellKeyed(f.val) && f.key !in ViewFields(fields)
    ensures WellKeyedFields(fields + [f])
    ensures ViewFields(fields + [f]) == ViewFields(fields)[f.key := View(f.val)]
  {
    var all := fields + [f];
    if fields != [] {
      var rest := fields[1..];
      ViewFieldsCons(fields);
      ViewSnoc(rest, f);
      assert all[0] == fields[0] && all[1..] == rest + [f];
      ViewFieldsKeys(rest + [f]);
      UpdateBesideHead(fields[0].key, View(fields[0].val), ViewFields(rest), f.key, View(f.val));
    } else {
      assert all[1..] == [];
    }
  }

  lemma {:induction false} EmitFieldsSnoc(e: Fmt, prefix: string, fields: seq<Field>, f: Field)
    ensures EmitFields(e, prefix, fields + [f])
         == EmitFields(e, prefix, fields) + Emit(e, Under(prefix, f.key), f.val)
  {
    if fields == [] {
      assert (fields + [f])[1..] == [];
    } else {
      assert (fields + [f])[1..] == fields[1..] + [f];
      EmitFieldsSnoc(e, prefix, fields[1..], f);
    }
  }

  lemma {:induction false} EmitChildrenSnoc(e: Fmt, head: string, fields: seq<Field>, f: Field, skip: string)
    ensures EmitChildren(e, head, fields + [f], skip)
         == EmitChildren(e, head, fields, skip)
            + if f.key == skip then [] else Emit(e, head + " " + f.key, f.val)
  {
    if fields == [] {
      assert (fields + [f])[1..] == [];
    } else {
      assert (fields + [f])[1..] == fields[1..] + [f];
      EmitChildrenSnoc(e, head, fields[1..], f, skip);
    }
  }

  lemma {:induction false} EmitItemsSnoc(e: Fmt, prefix: string, items: seq<OTree>, o: OTree)
    requires AllMaps(items) && o.OMap?
    ensures EmitItems(e, prefix, items + [o]) == EmitItems(e, prefix, items) + EmitItem(e, prefix, o.fields)
  {
    if items == [] {
      assert (items + [o])[1..] == [];
    } else {
      assert (items + [o])[1..] == items[1..] + [o];
      EmitItemsSnoc(e, prefix, items[1..], o);
    }
  }

  // ---------------------------------------------------------------- emitSetLines

  function KeysOf(fields: seq<Field>): (r: seq<string>)
    ensures |r| == |fields| && forall i | 0 <= i < |r| :: r[i] == fields[i].key
  {
    seq(|fields|, i requires 0 <= i < |fields| => fields[i].key)
  }

  /** The lines are those of some view of the tree. */
  ghost predicate Prints(e: Fmt, prefix: string, t: Tree, lines: seq<string>) {
    exists o :: View(o) == t && WellKeyed(o) && lines == Emit(e, prefix, o)
  }

  function Restrict(m: TreeMap, keys: set<string>): TreeMap {
    map k | k in m && k in keys :: m[k]
  }

  /** The lines appended for a value, with the view of it in the order it was visited. */
  method EmitSetLines(e: Fmt, prefix: string, t: Tree) returns (lines: seq<string>, ghost o: OTree)
    ensures View(o) == t && WellKeyed(o) && lines == Emit(e, prefix, o)
    ensures Prints(e, prefix, t, lines)
    decreases t, 2
  {
    match t
    case Map(m) =>
      ghost var fields;
      lines, fields := EmitMap(e, prefix, m);
      o := OMap(fields);
    case List(items) =>
      ghost var os;
      lines, os := EmitList(e, prefix, items);
      o := OList(os);
    case Nil =>
      lines, o := [], ONil;
    case Leaf(v) =>
      o := OLeaf(v);
      var s := SprintScalar(e, v);
      lines := if TrimSpace(s) == "" then [] else [SetLine(prefix, ScalarText(e, s))];
  }

  lemma VisitOne(e: Fmt, prefix: string, m: TreeMap, fields: seq<Field>, done: set<string>, f: Field)
    requires WellKeyedFields(fields) && ViewFields(fields) == Restrict(m, done)
    requires f.key in m && f.key !in done && View(f.val) == m[f.key] && WellKeyed(f.val)
    ensures WellKeyedFields(fields + [f]) && ViewFields(fields + [f]) == Restrict(m, done + {f.key})
    ensures EmitFields(e, prefix, fields + [f]) == EmitFields(e, prefix, fields) + Emit(e, Under(prefix, f.key), f.val)
  {
    ViewSnoc(fields, f);
    EmitFieldsSnoc(e, prefix, fields, f);
  }

  function KeySet(keys: seq<string>): set<string> {
    set k | k in keys
  }

  /** The first `i` keys have been visited. */
  ghost predicate Visited(
      e: Fmt, prefix: string, m: TreeMap, keys: seq<string>, i: nat, fields: seq<Field>, lines: seq<string>) {
    && i <= |keys| && KeysOf(fields) == keys[..i]
    && WellKeyedFields(fields) && ViewFields(fields) == Restrict(m, KeySet(keys[..i]))
    && lines == EmitFields(e, prefix, fields)
  }

  lemma VisitNext(
      e: Fmt, prefix: string, m: TreeMap, keys: seq<string>, i: nat, fields: seq<Field>, lines: seq<string>, f: Field)
    requires Visited(e, prefix, m, keys, i, fields, lines) && Distinct(keys)
    requires i < |keys| && f.key == keys[i] && f.key in m && View(f.val) == m[f.key] && WellKeyed(f.val)
    ensures Visited(e, prefix, m, keys, i + 1, fields + [f], lines + Emit(e, Under(prefix, f.key), f.val))
  {
    var done := KeySet(keys[..i]);
    assert keys[..i + 1] == keys[..i] + [keys[i]];
    assert KeySet(keys[..i + 1]) == done + {keys[i]};
    VisitOne(e, prefix, m, fields, done, f);
  }

  lemma AllVisited(e: Fmt, prefix: string, m: TreeMap, keys: seq<string>, fields: seq<Field>, lines: seq<string>)
    requires Visited(e, prefix, m, keys, |keys|, fields, lines) && forall k :: k in keys <==> k in m
    ensures ViewFields(fields) == m && KeysOf(fields) == keys
  {
    assert keys[..|keys|] == keys;
  }

  method EmitMap(e: Fmt, prefix: string, m: TreeMap) returns (lines: seq<string>, ghost fields: seq<Field>)
    ensures ViewFields(fields) == m && WellKeyedFields(fields) && lines == EmitFields(e, prefix, fields)
    ensures Ascending(KeysOf(fields))
    decreases Map(m), 1
  {
    var keys := SortedKeys(m);
    lines, fields := [], [];
    for i := 0 to |keys|
      invariant Visited(e, prefix, m, keys, i, fields, lines)
    {
      var k := keys[i];
      assert k in keys;
      var sub, o := EmitSetLines(e, Under(prefix, k), m[k]);
      VisitNext(e, prefix, m, keys, i, fields, lines, Field(k, o));
      lines, fields := lines + sub, fields + [Field(k, o)];
    }
    AllVisited(e, prefix, m, keys, fields, lines);
  }

  method EmitList(e: Fmt, prefix: string, items: seq<Tree>) returns (lines: seq<string>, ghost os: seq<OTree>)
    ensures View(OList(os)) == List(items) && WellKeyed(OList(os)) && lines == Emit(e, prefix, OList(os))
    decreases List(items), 1
  {
    var allMaps := forall i | 0 <= i < |items| :: items[i].Map?;
    lines, os := [], [];
    if allMaps {
      for i := 0 to |items|
        invariant |os| == i && AllMaps(os)
        invariant forall j | 0 <= j < i :: View(os[j]) == items[j] && WellKeyed(os[j])
        invariant lines == EmitItems(e, prefix, os)
      {
        var sub, fields := EmitEntry(e, prefix, items[i].m);
        EmitItemsSnoc(e, prefix, os, OMap(fields));
        lines, os := lines + sub, os + [OMap(fields)];
      }
    } else {
      lines, os := EmitScalars(e, prefix, items);
    }
  }

  /** A list that does not hold only maps: one bracketed line. */
  method EmitScalars(e: Fmt, prefix: string, items: seq<Tree>) returns (lines: seq<string>, ghost os: seq<OTree>)
    requires exists i :: 0 <= i < |items| && !items[i].Map?
    ensures View(OList(os)) == List(items) && WellKeyed(OList(os)) && lines == Emit(e, prefix, OList(os))
  {
    var parts: seq<string> := [];
    os := [];
    for i := 0 to |items|
      invariant |os| == |parts| == i
      invariant forall j | 0 <= j < i :: View(os[j]) == items[j] && WellKeyed(os[j])
      invariant forall j | 0 <= j < i :: parts[j] == Sprint(e, items[j])
    {
      ghost var o := SomeView(items[i]);
      parts, os := parts + [Sprint(e, items[i])], os + [o];
    }
    assert parts == SprintAll(e, os);
    assert !AllMaps(os);
    lines := [SetLine(prefix, "[" + Join(parts, ',') + "]")];
  }

  lemma VisitChild(e: Fmt, head: string, keyField: string, m: TreeMap, fields: seq<Field>, left: set<string>, f: Field)
    requires WellKeyedFields(fields) && left <= m.Keys && ViewFields(fields) == Restrict(m, m.Keys - left)
    requires f.key in left && View(f.val) == m[f.key] && WellKeyed(f.val)
    ensures WellKeyedFields(fields + [f]) && ViewFields(fields + [f]) == Restrict(m, m.Keys - (left - {f.key}))
    ensures EmitChildren(e, head, fields + [f], keyField)
         == EmitChildren(e, head, fields, keyField)
            + if f.key == keyField then [] else Emit(e, head + " " + f.key, f.val)
  {
    ViewSnoc(fields, f);
    EmitChildrenSnoc(e, head, fields, f, keyField);
  }

  /** One entry of a list of maps: its fields in whatever order the range yields them. */
  method EmitEntry(e: Fmt, prefix: string, m: TreeMap) returns (lines: seq<string>, ghost fields: seq<Field>)
    ensures ViewFields(fields) == m && WellKeyedFields(fields) && lines == EmitItem(e, prefix, fields)
    decreases Map(m), 2
  {
    var keyField := if "id" in m then "id" else "name";
    var key := if keyField in m then Sprint(e, m[keyField]) else "";
    if key == "" {
      lines, fields := EmitMap(e, prefix, m);
      FieldIndexView(fields, "id");
      FieldIndexView(fields, "name");
      return;
    }
    var head := EntryHead(prefix, key);
    var left := m.Keys;
    lines, fields := [], [];
    while left != {}
      invariant left <= m.Keys && ViewFields(fields) == Restrict(m, m.Keys - left)
      invariant WellKeyedFields(fields) && lines == EmitChildren(e, head, fields, keyField)
      decreases left
    {
      var mk :| mk in left;
      ghost var o;
      if mk == keyField {
        o := SomeView(m[mk]);
      } else {
        var sub;
        sub, o := EmitSetLines(e, head + " " + mk, m[mk]);
        lines := lines + sub;
      }
      ghost var f := Field(mk, o);
      VisitChild(e, head, keyField, m, fields, left, f);
      fields, left := fields + [f], left - {mk};
    }
    FieldIndexView(fields, "id");
    FieldIndexView(fields, "name");
  }

  // ---------------------------------------------------------------- every tree has a view

  ghost function SomeView(t: Tree): (o: OTree)
    ensures View(o) == t && WellKeyed(o)
    decreases t, 1
  {
    match t
    case Nil => ONil
    case Leaf(v) => OLeaf(v)
    case List(items) =>
      var os := SomeViews(items);
      assert View(OList(os)).items == items;
      OList(os)
    case Map(m) =>
      assert Restrict(m, m.Keys) == m;
      OMap(SomeFields(m, m.Keys))
  }

  ghost function SomeViews(items: seq<Tree>): (os: seq<OTree>)
    ensures |os| == |items| && forall i | 0 <= i < |os| :: View(os[i]) == items[i] && WellKeyed(os[i])
    decreases items, 0
  {
    if items == [] then [] else [SomeView(items[0])] + SomeViews(items[1..])
  }

  ghost function SomeFields(m: TreeMap, keys: set<string>): (fields: seq<Field>)
    requires keys <= m.Keys
    ensures ViewFields(fields) == Restrict(m, keys) && WellKeyedFields(fields)
    decreases Map(m), 0, keys
  {
    if keys == {} then []
    else
      var k :| k in keys;
      var rest := SomeFields(m, keys - {k});
      ViewFieldsKeys(rest);
      [Field(k, SomeView(m[k]))] + rest
  }

  // ---------------------------------------------------------------- the whole site

  /** Prints a site tree: the text is the lines of some view of it. When what is printed of the tree
      is in the printable fragment, the text reads back as exactly that, which is the whole tree when
      the tree itself is printable. */
  method SiteToSetLines(e: Fmt, m: TreeMap) returns (text: string, ghost fields: seq<Field>)
    ensures ViewFields(fields) == m && WellKeyedFields(fields)
    ensures text == SetLinesText(EmitFields(e, "", fields))
    ensures Printable(e, Printed(e, m)) ==> ApplySource(e, map[], text) == Ok(Printed(e, m))
    ensures Printable(e, m) ==> ApplySource(e, map[], text) == Ok(m)
  {
    var lines;
    lines, fields := EmitMap(e, "", m);
    text := SetLinesText(lines);
    ReadsBack(e, m, fields);
  }

  lemma ReadsBack(e: Fmt, m: TreeMap, fields: seq<Field>)
    requires WellKeyedFields(fields) && ViewFields(fields) == m
    ensures Printable(e, Printed(e, m)) ==> ApplySource(e, map[], SetLinesText(EmitFields(e, "", fields))) == Ok(Printed(e, m))
    ensures Printable(e, m) ==> Printed(e, m) == m
  {
    if Printable(e, m) {
      PrintableIsPrinted(e, m);
    }
    if Printable(e, Printed(e, m)) {
      PrintThenReadAny(e, fields);
    }
  }

  /** Prints a tree, reads the text and hands back what was read. */
  method Reload(e: Fmt, m: TreeMap) returns (r: Result)
    ensures Printable(e, Printed(e, m)) ==> r == Ok(Printed(e, m))
    ensures Printable(e, m) ==> r == Ok(m)
  {
    var text, fields := SiteToSetLines(e, m);
    r := ApplyTugconfSource(e, map[], text);
  }
}
