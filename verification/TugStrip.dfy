/** What the printer leaves out. Nulls, blank scalars, and maps and lists with nothing in them print no
    line; the rest of a tree is what its text stands for. */
module TugStrip {
  import opened Text
  import opened TugTree
  import opened TugSyntax
  import opened TugPrint
  import opened TugRoundTrip

  // ---------------------------------------------------------------- trees

  predicate AreMaps(items: seq<Tree>) {
    forall i | 0 <= i < |items| :: items[i].Map?
  }

  /** The field that names a list entry. */
  function NameField(m: TreeMap): string {
    if "id" in m then "id" else "name"
  }

  /** A list entry with nothing beside a scalar or null name. */
  predicate OnlyNamed(m: TreeMap, name: string) {
    m - {name} == map[] && (name in m ==> !m[name].Map? && !m[name].List?)
  }

  /** The part of a value that is printed, if any. */
  function Strip(e: Fmt, t: Tree): Option<Tree>
    decreases t, 1
  {
    match t
    case Nil => None
    case Leaf(v) => if TrimSpace(SprintScalar(e, v)) == "" then None else Some(t)
    case List(items) =>
      if !AreMaps(items) then Some(t)
      else
        var kept := StripEntries(e, items);
        if kept == [] then None else Some(List(kept))
    case Map(m) =>
      var kept := StripMap(e, m, None);
      if kept == map[] then None else Some(Map(kept))
  }

  /** The fields that are printed; the field `name` is kept as it is. */
  function StripMap(e: Fmt, m: TreeMap, name: Option<string>): TreeMap
    decreases Map(m), 0
  {
    map k | k in m && (name == Some(k) || Strip(e, m[k]).Some?) ::
      if name == Some(k) then m[k] else Strip(e, m[k]).value
  }

  /** The entries of a list of maps that are printed. */
  function StripEntries(e: Fmt, items: seq<Tree>): seq<Tree>
    requires AreMaps(items)
    decreases items, 0
  {
    if items == [] then []
    else
      var m := items[0].m;
      var kept := StripMap(e, m, Some(NameField(m)));
      var rest := StripEntries(e, items[1..]);
      if OnlyNamed(kept, NameField(m)) then rest else [Map(kept)] + rest
  }

  /** What is printed of a whole tree. */
  function Printed(e: Fmt, m: TreeMap): TreeMap {
    StripMap(e, m, None)
  }

  // ---------------------------------------------------------------- views

  function StripView(e: Fmt, o: OTree): Option<OTree>
    decreases o, 1
  {
    match o
    case ONil => None
    case OLeaf(v) => if TrimSpace(SprintScalar(e, v)) == "" then None else Some(o)
    case OList(items) =>
      if !AllMaps(items) then Some(o)
      else
        var kept := StripItems(e, items);
        if kept == [] then None else Some(OList(kept))
    case OMap(fields) =>
      var kept := StripFields(e, fields, None);
      if kept == [] then None else Some(OMap(kept))
  }

  function StripFields(e: Fmt, fields: seq<Field>, name: Option<string>): seq<Field>
    decreases fields, 0
  {
    if fields == [] then []
    else StripField(e, fields[0], name) + StripFields(e, fields[1..], name)
  }

  function StripField(e: Fmt, f: Field, name: Option<string>): seq<Field>
    decreases f, 2
  {
    if name == Some(f.key) then [f]
    else
      match StripView(e, f.val)
      case None => []
      case Some(o) => [Field(f.key, o)]
  }

  function NameOf(fields: seq<Field>): string {
    if HasField(fields, "id") then "id" else "name"
  }

  function StripItems(e: Fmt, items: seq<OTree>): (r: seq<OTree>)
    requires AllMaps(items)
    ensures AllMaps(r)
    decreases items, 0
  {
    if items == [] then []
    else
      var fields := items[0].fields;
      var kept := StripFields(e, fields, Some(NameOf(fields)));
      var rest := StripItems(e, items[1..]);
      if OnlyNamed(ViewFields(kept), NameOf(fields)) then rest else [OMap(kept)] + rest
  }

  // ---------------------------------------------------------------- the stripped view is a view of the stripped tree

  /** What the stripping of a view has to be. */
  ghost predicate Fits(e: Fmt, o: OTree) {
    match StripView(e, o)
    case None => Strip(e, View(o)) == None
    case Some(o') => WellKeyed(o') && Strip(e, View(o)) == Some(View(o'))
  }

  lemma {:induction false} StripFits(e: Fmt, o: OTree)
    requires WellKeyed(o)
    ensures Fits(e, o)
    decreases o, 1
  {
    match o
    case OMap(fields) =>
      StripFieldsFit(e, fields, None);
      NoFields(StripFields(e, fields, None));
    case OList(items) =>
      assert AreMaps(View(o).items) <==> AllMaps(items) by {
        assert forall i | 0 <= i < |items| :: View(o).items[i] == View(items[i]);
      }
      if AllMaps(items) {
        StripItemsFit(e, items);
      }
    case _ =>
  }

  lemma NoFields(fields: seq<Field>)
    ensures fields == [] <==> ViewFields(fields) == map[]
  {
    if fields != [] {
      assert fields[0].key in ViewFields(fields);
    }
  }

  /** Adding the first field, or leaving it out. */
  lemma StripCons(e: Fmt, f: Field, m: TreeMap, name: Option<string>)
    requires f.key !in m
    ensures StripMap(e, m[f.key := View(f.val)], name) ==
            if name == Some(f.key) then StripMap(e, m, name)[f.key := View(f.val)]
            else if Strip(e, View(f.val)).Some? then StripMap(e, m, name)[f.key := Strip(e, View(f.val)).value]
            else StripMap(e, m, name)
  {
  }

  lemma {:induction false} StripFieldsFit(e: Fmt, fields: seq<Field>, name: Option<string>)
    requires WellKeyedFields(fields)
    ensures WellKeyedFields(StripFields(e, fields, name))
    ensures ViewFields(StripFields(e, fields, name)) == StripMap(e, ViewFields(fields), name)
    decreases fields, 0
  {
    if fields != [] {
      var f := fields[0];
      var rest := StripFields(e, fields[1..], name);
      ViewFieldsCons(fields);
      StripFits(e, f.val);
      StripFieldsFit(e, fields[1..], name);
      StripCons(e, f, ViewFields(fields[1..]), name);
      ViewFieldsKeys(rest);
      FieldThen(StripField(e, f, name), rest, f.key);
    }
  }

  lemma FieldThen(head: seq<Field>, rest: seq<Field>, k: string)
    requires |head| <= 1 && WellKeyedFields(rest) && k !in ViewFields(rest)
    requires head != [] ==> head[0].key == k && WellKeyed(head[0].val)
    ensures WellKeyedFields(head + rest)
    ensures ViewFields(head + rest) == if head == [] then ViewFields(rest) else ViewFields(rest)[k := View(head[0].val)]
  {
    if head == [] {
      assert head + rest == rest;
    } else {
      assert (head + rest)[1..] == rest && (head + rest)[0] == head[0];
      ViewFieldsKeys(rest);
    }
  }

  lemma {:induction false} StripItemFits(e: Fmt, fields: seq<Field>)
    requires WellKeyedFields(fields)
    ensures NameOf(fields) == NameField(ViewFields(fields))
    ensures var kept := StripFields(e, fields, Some(NameOf(fields)));
            WellKeyedFields(kept) && ViewFields(kept) == StripMap(e, ViewFields(fields), Some(NameOf(fields)))
    decreases fields, 1
  {
    StripFieldsFit(e, fields, Some(NameOf(fields)));
    ViewFieldsKeys(fields);
  }

  lemma HeadFits(e: Fmt, items: seq<OTree>, m: TreeMap, kept: seq<Field>, rest: seq<OTree>)
    requires items != [] && AllMaps(items) && AreMaps(Views(items)) && View(items[0]) == Map(m)
    requires NameOf(items[0].fields) == NameField(m) && kept == StripFields(e, items[0].fields, Some(NameField(m)))
    requires WellKeyedFields(kept) && ViewFields(kept) == StripMap(e, m, Some(NameField(m)))
    requires rest == StripItems(e, items[1..]) && WellKeyed(OList(rest))
    requires AreMaps(Views(items[1..])) && Views(rest) == StripEntries(e, Views(items[1..]))
    ensures WellKeyed(OList(StripItems(e, items)))
    ensures Views(StripItems(e, items)) == StripEntries(e, Views(items))
  {
    ViewsTail(items);
    assert Views(items)[0] == Map(m) && Views(items)[1..] == Views(items[1..]);
    ViewsCons(OMap(kept), rest);
  }

  lemma {:induction false} StripItemsFit(e: Fmt, items: seq<OTree>)
    requires AllMaps(items) && WellKeyed(OList(items)) && AreMaps(Views(items))
    ensures WellKeyed(OList(StripItems(e, items)))
    ensures Views(StripItems(e, items)) == StripEntries(e, Views(items))
    decreases items, 0
  {
    if items != [] {
      var fields := items[0].fields;
      assert WellKeyed(items[0]) && View(items[0]) == Map(ViewFields(fields));
      StripItemFits(e, fields);
      StripItemsFit(e, items[1..]);
      HeadFits(e, items, ViewFields(fields), StripFields(e, fields, Some(NameOf(fields))), StripItems(e, items[1..]));
    }
  }

  lemma ViewsCons(o: OTree, items: seq<OTree>)
    ensures Views([o] + items) == [View(o)] + Views(items)
  {
    ViewsTail([o] + items);
    assert ([o] + items)[1..] == items;
  }

  // ---------------------------------------------------------------- the same lines

  function EmitSome(e: Fmt, prefix: string, o: Option<OTree>): seq<string> {
    match o
    case None => []
    case Some(o) => Emit(e, prefix, o)
  }

  /** What is left out prints nothing. */
  lemma {:induction false} StripEmits(e: Fmt, prefix: string, o: OTree)
    requires WellKeyed(o)
    ensures Emit(e, prefix, o) == EmitSome(e, prefix, StripView(e, o))
    decreases o, 1
  {
    match o
    case OMap(fields) => StripFieldsEmit(e, prefix, fields, None);
    case OList(items) =>
      if AllMaps(items) {
        StripItemsEmit(e, prefix, items);
      }
    case _ =>
  }

  lemma {:induction false} StripFieldsEmit(e: Fmt, prefix: string, fields: seq<Field>, name: Option<string>)
    requires WellKeyedFields(fields)
    ensures EmitFields(e, prefix, fields) == EmitFields(e, prefix, StripFields(e, fields, name))
    decreases fields, 0
  {
    if fields != [] {
      var f := fields[0];
      var rest := StripFields(e, fields[1..], name);
      StripEmits(e, Under(prefix, f.key), f.val);
      StripFieldsEmit(e, prefix, fields[1..], name);
      FieldLines(e, prefix, StripField(e, f, name), rest);
    }
  }

  lemma FieldLines(e: Fmt, prefix: string, head: seq<Field>, rest: seq<Field>)
    requires |head| <= 1
    ensures EmitFields(e, prefix, head + rest) ==
            if head == [] then EmitFields(e, prefix, rest)
            else Emit(e, Under(prefix, head[0].key), head[0].val) + EmitFields(e, prefix, rest)
  {
    if head == [] {
      assert head + rest == rest;
    } else {
      assert (head + rest)[1..] == rest && (head + rest)[0] == head[0];
    }
  }

  lemma {:induction false} StripChildrenEmit(e: Fmt, head: string, fields: seq<Field>, skip: string)
    requires WellKeyedFields(fields)
    ensures EmitChildren(e, head, fields, skip) == EmitChildren(e, head, StripFields(e, fields, Some(skip)), skip)
    decreases fields, 0
  {
    if fields != [] {
      var f := fields[0];
      var rest := StripFields(e, fields[1..], Some(skip));
      StripEmits(e, head + " " + f.key, f.val);
      StripChildrenEmit(e, head, fields[1..], skip);
      ChildLines(e, head, StripField(e, f, Some(skip)), rest, skip);
    }
  }

  lemma ChildLines(e: Fmt, prefix: string, head: seq<Field>, rest: seq<Field>, skip: string)
    requires |head| <= 1
    ensures EmitChildren(e, prefix, head + rest, skip) ==
            if head == [] || head[0].key == skip then EmitChildren(e, prefix, rest, skip)
            else Emit(e, prefix + " " + head[0].key, head[0].val) + EmitChildren(e, prefix, rest, skip)
  {
    if head == [] {
      assert head + rest == rest;
    } else {
      assert (head + rest)[1..] == rest && (head + rest)[0] == head[0];
    }
  }

  /** An entry keeps its name. */
  lemma NameKept(e: Fmt, fields: seq<Field>)
    requires WellKeyedFields(fields)
    ensures var kept := StripFields(e, fields, Some(NameOf(fields)));
            && NameOf(kept) == NameOf(fields) && (HasField(kept, NameOf(kept)) <==> HasField(fields, NameOf(fields)))
            && (HasField(fields, NameOf(fields)) ==>
                  NameOf(fields) in ViewFields(fields) && NameOf(fields) in ViewFields(kept)
                  && ViewFields(kept)[NameOf(fields)] == ViewFields(fields)[NameOf(fields)])
  {
    var kept := StripFields(e, fields, Some(NameOf(fields)));
    StripFieldsFit(e, fields, Some(NameOf(fields)));
    ViewFieldsKeys(fields);
    ViewFieldsKeys(kept);
    assert forall k :: k in ViewFields(kept) ==> k in ViewFields(fields);
  }

  /** The text that names an entry, empty for none. */
  function NameText(e: Fmt, fields: seq<Field>): string {
    if NameOf(fields) in ViewFields(fields) then Sprint(e, ViewFields(fields)[NameOf(fields)]) else ""
  }

  lemma EmitItemIs(e: Fmt, prefix: string, fields: seq<Field>)
    requires WellKeyedFields(fields)
    ensures EmitItem(e, prefix, fields) ==
            if NameText(e, fields) == "" then EmitFields(e, prefix, fields)
            else EmitChildren(e, EntryHead(prefix, NameText(e, fields)), fields, NameOf(fields))
  {
    ViewFieldsKeys(fields);
    FieldIndexView(fields, "id");
    FieldIndexView(fields, "name");
  }

  lemma {:induction false} StripItemEmits(e: Fmt, prefix: string, fields: seq<Field>)
    requires WellKeyedFields(fields)
    ensures EmitItem(e, prefix, fields) == EmitItem(e, prefix, StripFields(e, fields, Some(NameOf(fields))))
    decreases fields, 1
  {
    var kept := StripFields(e, fields, Some(NameOf(fields)));
    StripFieldsFit(e, fields, Some(NameOf(fields)));
    NameKept(e, fields);
    ViewFieldsKeys(fields);
    ViewFieldsKeys(kept);
    EmitItemIs(e, prefix, fields);
    EmitItemIs(e, prefix, kept);
    StripFieldsEmit(e, prefix, fields, Some(NameOf(fields)));
    StripChildrenEmit(e, EntryHead(prefix, NameText(e, fields)), fields, NameOf(fields));
  }

  /** An entry with only a scalar name prints nothing. */
  lemma OnlyNamedIsSilent(e: Fmt, prefix: string, fields: seq<Field>)
    requires WellKeyedFields(fields) && OnlyNamed(ViewFields(fields), NameOf(fields))
    ensures EmitItem(e, prefix, fields) == []
  {
    EmitItemIs(e, prefix, fields);
    OneField(fields, NameOf(fields));
    if fields != [] {
      var f := fields[0];
      ViewFieldsCons(fields);
      assert EmitFields(e, prefix, fields) == Emit(e, Under(prefix, f.key), f.val) + EmitFields(e, prefix, fields[1..]);
      assert EmitChildren(e, EntryHead(prefix, NameText(e, fields)), fields[1..], f.key) == [];
      SilentName(e, Under(prefix, f.key), f.val);
    }
  }

  lemma OneField(fields: seq<Field>, k: string)
    requires WellKeyedFields(fields) && ViewFields(fields) - {k} == map[]
    ensures fields == [] || (fields[0].key == k && fields[1..] == [])
  {
    ViewFieldsKeys(fields);
    forall i | 0 <= i < |fields| ensures fields[i].key == k {
      assert HasField(fields, fields[i].key);
      assert fields[i].key in ViewFields(fields) && fields[i].key !in ViewFields(fields) - {k};
    }
  }

  lemma SilentName(e: Fmt, prefix: string, o: OTree)
    requires !o.OMap? && !o.OList?
    ensures Sprint(e, View(o)) == "" ==> Emit(e, prefix, o) == []
  {
    assert TrimSpace("") == "";
  }

  lemma {:induction false} StripItemsEmit(e: Fmt, prefix: string, items: seq<OTree>)
    requires AllMaps(items) && WellKeyed(OList(items))
    ensures EmitItems(e, prefix, items) == EmitItems(e, prefix, StripItems(e, items))
    decreases items, 0
  {
    if items != [] {
      var fields := items[0].fields;
      var kept := StripFields(e, fields, Some(NameOf(fields)));
      var rest := StripItems(e, items[1..]);
      assert WellKeyed(items[0]);
      StripItemEmits(e, prefix, fields);
      StripFieldsFit(e, fields, Some(NameOf(fields)));
      NameKept(e, fields);
      StripItemsEmit(e, prefix, items[1..]);
      if OnlyNamed(ViewFields(kept), NameOf(fields)) {
        OnlyNamedIsSilent(e, prefix, kept);
      } else {
        assert ([OMap(kept)] + rest)[1..] == rest;
      }
    }
  }

  // ---------------------------------------------------------------- main results

  /** Printing and reading any tree: if what is printed of it is in the printable fragment, then the
      text reads back as exactly that, for every order in which the printer may visit its maps. */
  lemma PrintThenReadAny(e: Fmt, fields: seq<Field>)
    requires WellKeyedFields(fields) && Printable(e, Printed(e, ViewFields(fields)))
    ensures ApplySource(e, map[], SetLinesText(Emit(e, "", OMap(fields)))) == Ok(Printed(e, ViewFields(fields)))
  {
    StripFieldsFit(e, fields, None);
    StripFieldsEmit(e, "", fields, None);
    PrintThenRead(e, StripFields(e, fields, None));
  }

  /** Nothing of a printable tree is left out. */
  lemma PrintableIsPrinted(e: Fmt, m: TreeMap)
    requires Printable(e, m)
    ensures Printed(e, m) == m
  {
    forall k | k in m ensures Strip(e, m[k]) == Some(m[k]) {
      assert SiteFieldSafe(e, k, m[k]);
      if k == "stack" && m[k].Map? {
        StackIsPrinted(e, m[k].m);
      } else if Plain(e, m[k]) {
        PlainIsPrinted(e, m[k]);
      } else {
        EntriesArePrinted(e, m[k].items, "id");
      }
    }
    assert forall k | k in m :: Printed(e, m)[k] == m[k];
  }

  lemma StackIsPrinted(e: Fmt, m: TreeMap)
    requires m != map[] && StackSafeMap(e, m)
    ensures Strip(e, Map(m)) == Some(Map(m))
  {
    forall k | k in m ensures Strip(e, m[k]) == Some(m[k]) {
      assert StackFieldSafe(e, k, m[k]);
      if Plain(e, m[k]) {
        PlainIsPrinted(e, m[k]);
      } else {
        EntriesArePrinted(e, m[k].items, "name");
      }
    }
    assert StripMap(e, m, None) == m;
  }

  lemma {:induction false} PlainIsPrinted(e: Fmt, t: Tree)
    requires Plain(e, t)
    ensures Strip(e, t) == Some(t)
    decreases t, 1
  {
    match t
    case Leaf(v) => SafeTextIsPrinted(e, v);
    case List(items) => assert items[0].Leaf?;
    case Map(m) =>
      PlainMapIsPrinted(e, m, None);
    case Nil =>
  }

  lemma {:induction false} PlainMapIsPrinted(e: Fmt, m: TreeMap, name: Option<string>)
    requires forall k | k in m && name != Some(k) :: Plain(e, m[k])
    ensures StripMap(e, m, name) == m
    decreases Map(m), 0
  {
    forall k | k in m && name != Some(k) ensures Strip(e, m[k]) == Some(m[k]) {
      PlainIsPrinted(e, m[k]);
    }
  }

  predicate SafeEntries(e: Fmt, items: seq<Tree>, name: string) {
    forall i | 0 <= i < |items| :: EntrySafe(e, items[i], name)
  }

  lemma SafeHead(e: Fmt, items: seq<Tree>, name: string)
    requires items != [] && SafeEntries(e, items, name)
    ensures items[0].Map? && EntrySafe(e, Map(items[0].m), name) && SafeEntries(e, items[1..], name)
  {
    assert EntrySafe(e, items[0], name);
    forall i | 0 <= i < |items| - 1 ensures EntrySafe(e, items[1..][i], name) {
      assert EntrySafe(e, items[i + 1], name);
    }
  }

  lemma EntriesArePrinted(e: Fmt, items: seq<Tree>, name: string)
    requires KeyedSafe(e, items, name) && (name == "id" || name == "name")
    ensures Strip(e, List(items)) == Some(List(items))
  {
    AllEntriesPrinted(e, items, name);
  }

  lemma EntryIsPrinted(e: Fmt, m: TreeMap, name: string)
    requires EntrySafe(e, Map(m), name) && (name == "id" || name == "name")
    ensures NameField(m) == name && StripMap(e, m, Some(name)) == m && !OnlyNamed(m, name)
  {
    forall k | k in m && Some(name) != Some(k) ensures Plain(e, m[k]) {
      assert k in m - {name} && (m - {name})[k] == m[k];
    }
    PlainMapIsPrinted(e, m, Some(name));
  }

  lemma {:induction false} AllEntriesPrinted(e: Fmt, items: seq<Tree>, name: string)
    requires SafeEntries(e, items, name) && (name == "id" || name == "name")
    ensures AreMaps(items) && StripEntries(e, items) == items
  {
    if items != [] {
      SafeHead(e, items, name);
      EntryIsPrinted(e, items[0].m, name);
      AllEntriesPrinted(e, items[1..], name);
      StripHead(e, items, name);
    }
  }

  lemma StripHead(e: Fmt, items: seq<Tree>, name: string)
    requires items != [] && items[0].Map? && AreMaps(items[1..]) && StripEntries(e, items[1..]) == items[1..]
    requires var m := items[0].m; NameField(m) == name && StripMap(e, m, Some(name)) == m && !OnlyNamed(m, name)
    ensures AreMaps(items) && StripEntries(e, items) == items
  {
    assert items == [items[0]] + items[1..];
  }

  /** What comes back prints as itself, so a second round changes nothing. */
  lemma SecondRound(e: Fmt, m: TreeMap, fields: seq<Field>)
    requires Printable(e, Printed(e, m)) && WellKeyedFields(fields) && ViewFields(fields) == Printed(e, m)
    ensures Printed(e, Printed(e, m)) == Printed(e, m)
    ensures ApplySource(e, map[], SetLinesText(Emit(e, "", OMap(fields)))) == Ok(Printed(e, m))
  {
    PrintableIsPrinted(e, Printed(e, m));
    PrintThenReadAny(e, fields);
  }
}
