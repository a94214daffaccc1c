/** Site trees as they come from a configuration: every field is there, most of them null or blank.
    And two lists that the printer puts where they do not come back from. */
module TugSite {
  import opened Text
  import opened TugTree
  import opened TugSyntax
  import opened TugPrint
  import opened TugRoundTrip
  import opened TugStrip

  // ---------------------------------------------------------------- a site with one pop

  const BLANK := Leaf(Str(""))

  /** A site with its name, its domain and one pop, and all other fields unset. */
  function OnePopSite(name: string, domain: string, pop: TreeMap): TreeMap {
    map["apiVersion" := BLANK, "kind" := BLANK, "mesh" := Nil, "hub" := Nil, "stack" := Nil,
        "kernel_mesh" := Nil, "process" := Nil] +
    map["site" := Map(map["public_scheme" := BLANK, "token_env" := BLANK] + SetMeta(name, domain)),
        "pops" := List([Map(pop)])]
  }

  function SitePop(id: string, domain: string, roles: seq<Tree>): TreeMap {
    map["region" := BLANK, "tunnel" := Nil, "anycast" := Nil, "kernel" := Nil, "vhosts" := Nil, "dns" := Nil,
        "stack_overrides" := Nil] +
    SetPop(id, domain, roles)
  }

  /** The fields that are set. */
  function SetPop(id: string, domain: string, roles: seq<Tree>): TreeMap {
    map["id" := Leaf(Str(id)), "roles" := List(roles), "domain" := Leaf(Str(domain))]
  }

  function SetMeta(name: string, domain: string): TreeMap {
    map["name" := Leaf(Str(name)), "domain" := Leaf(Str(domain))]
  }

  function SetSite(name: string, domain: string, pop: TreeMap): TreeMap {
    map["site" := Map(SetMeta(name, domain)), "pops" := List([Map(pop)])]
  }

  predicate Unset(m: TreeMap) {
    forall k | k in m :: m[k] == BLANK || m[k] == Nil
  }

  /** Unset fields print nothing. */
  lemma UnsetIsSilent(e: Fmt, unset: TreeMap, m: TreeMap, name: Option<string>)
    requires Unset(unset) && unset.Keys !! m.Keys && (name.Some? ==> name.value !in unset)
    ensures StripMap(e, unset + m, name) == StripMap(e, m, name)
  {
    assert TrimSpace("") == "";
  }

  lemma TwoFields(e: Fmt, j: string, t: Tree, t': Tree, k: string, u: Tree, u': Tree)
    requires j != k && Strip(e, t) == Some(t') && Strip(e, u) == Some(u')
    ensures StripMap(e, map[j := t, k := u], None) == map[j := t', k := u']
  {
  }

  lemma PopPrinted(e: Fmt, id: string, domain: string, roles: seq<Tree>)
    requires ScalarSafe(e, Str(domain)) && ListSafe(roles)
    ensures StripMap(e, SitePop(id, domain, roles), Some("id")) == SetPop(id, domain, roles)
    ensures SetPop(id, domain, roles) - {"id"} != map[]
  {
    var unset: TreeMap := map["region" := BLANK, "tunnel" := Nil, "anycast" := Nil, "kernel" := Nil, "vhosts" := Nil,
                              "dns" := Nil, "stack_overrides" := Nil];
    UnsetIsSilent(e, unset, SetPop(id, domain, roles), Some("id"));
    SafeTextIsPrinted(e, Str(domain));
    assert roles[0].Leaf?;
    assert "domain" in SetPop(id, domain, roles) - {"id"};
  }

  lemma MetaPrinted(e: Fmt, name: string, domain: string)
    requires ScalarSafe(e, Str(name)) && ScalarSafe(e, Str(domain))
    ensures Strip(e, Map(map["public_scheme" := BLANK, "token_env" := BLANK] + SetMeta(name, domain)))
         == Some(Map(SetMeta(name, domain)))
  {
    UnsetIsSilent(e, map["public_scheme" := BLANK, "token_env" := BLANK], SetMeta(name, domain), None);
    SafeTextIsPrinted(e, Str(name));
    SafeTextIsPrinted(e, Str(domain));
    assert "name" in SetMeta(name, domain);
    TwoFields(e, "name", Leaf(Str(name)), Leaf(Str(name)), "domain", Leaf(Str(domain)), Leaf(Str(domain)));
  }

  lemma PopsPrinted(e: Fmt, pop: TreeMap, kept: TreeMap)
    requires "id" in pop && StripMap(e, pop, Some("id")) == kept && kept - {"id"} != map[]
    ensures Strip(e, List([Map(pop)])) == Some(List([Map(kept)]))
  {
    var items := [Map(pop)];
    assert AreMaps(items) && NameField(pop) == "id" && items[1..] == [];
    assert StripEntries(e, items[1..]) == [];
    assert items[0].m == pop && !OnlyNamed(kept, "id");
    assert StripEntries(e, items) == [Map(kept)] + StripEntries(e, items[1..]);
    assert [Map(kept)] + [] == [Map(kept)];
  }

  lemma SitePrinted(e: Fmt, name: string, domain: string, id: string, popDomain: string, roles: seq<Tree>)
    requires ScalarSafe(e, Str(name)) && ScalarSafe(e, Str(domain)) && ScalarSafe(e, Str(popDomain)) && ListSafe(roles)
    ensures Printed(e, OnePopSite(name, domain, SitePop(id, popDomain, roles)))
         == SetSite(name, domain, SetPop(id, popDomain, roles))
  {
    PopPrinted(e, id, popDomain, roles);
    MetaPrinted(e, name, domain);
    PopsPrinted(e, SitePop(id, popDomain, roles), SetPop(id, popDomain, roles));
    TwoPrinted(e, name, domain, SitePop(id, popDomain, roles), SetPop(id, popDomain, roles));
  }

  lemma TwoPrinted(e: Fmt, name: string, domain: string, pop: TreeMap, kept: TreeMap)
    requires Strip(e, List([Map(pop)])) == Some(List([Map(kept)]))
    requires Strip(e, Map(map["public_scheme" := BLANK, "token_env" := BLANK] + SetMeta(name, domain)))
          == Some(Map(SetMeta(name, domain)))
    ensures Printed(e, OnePopSite(name, domain, pop)) == SetSite(name, domain, kept)
  {
    var unset: TreeMap := map["apiVersion" := BLANK, "kind" := BLANK, "mesh" := Nil, "hub" := Nil, "stack" := Nil,
                              "kernel_mesh" := Nil, "process" := Nil];
    var m: TreeMap := map["site" := Map(map["public_scheme" := BLANK, "token_env" := BLANK] + SetMeta(name, domain)),
                          "pops" := List([Map(pop)])];
    UnsetIsSilent(e, unset, m, None);
    TwoFields(e, "site", m["site"], Map(SetMeta(name, domain)), "pops", m["pops"], List([Map(kept)]));
  }

  lemma NamesSafe()
    ensures TokenSafe("site") && TokenSafe("pops")
  {
  }

  lemma KeysSafe()
    ensures TokenSafe("name") && TokenSafe("domain") && TokenSafe("roles")
  {
  }

  lemma TwoPlain(e: Fmt, j: string, k: string, m: TreeMap)
    requires m.Keys == {j, k} && TokenSafe(j) && TokenSafe(k) && Plain(e, m[j]) && Plain(e, m[k])
    requires j != "roles" && (k == "roles" ==> !m[k].Leaf?)
    ensures Plain(e, Map(m)) && PlainMap(e, m) && m != map[]
  {
    assert j in m;
  }

  lemma MetaSafe(e: Fmt, name: string, domain: string)
    requires ScalarSafe(e, Str(name)) && ScalarSafe(e, Str(domain))
    ensures Plain(e, Map(SetMeta(name, domain)))
  {
    KeysSafe();
    TwoPlain(e, "name", "domain", SetMeta(name, domain));
  }

  lemma PopSafe(e: Fmt, id: string, domain: string, roles: seq<Tree>)
    requires TokenSafe(id) && ScalarSafe(e, Str(domain)) && ListSafe(roles)
    ensures KeyedSafe(e, [Map(SetPop(id, domain, roles))], "id")
  {
    KeysSafe();
    TwoPlain(e, "domain", "roles", SetPop(id, domain, roles) - {"id"});
  }

  lemma PlainField(e: Fmt, k: string, t: Tree)
    requires TokenSafe(k) && k != "roles" && k != "pop" && k != "stack" && Plain(e, t)
    ensures SiteFieldSafe(e, k, t)
  {
  }

  lemma PopsField(e: Fmt, items: seq<Tree>)
    requires TokenSafe("pops") && KeyedSafe(e, items, "id")
    ensures SiteFieldSafe(e, "pops", List(items))
  {
  }

  lemma SetSiteSafe(e: Fmt, name: string, domain: string, pop: TreeMap)
    requires Plain(e, Map(SetMeta(name, domain))) && KeyedSafe(e, [Map(pop)], "id")
    ensures Printable(e, SetSite(name, domain, pop))
  {
    NamesSafe();
    PlainField(e, "site", Map(SetMeta(name, domain)));
    PopsField(e, [Map(pop)]);
    AllSafe(e, SetSite(name, domain, pop));
  }

  lemma AllSafe(e: Fmt, m: TreeMap)
    requires m.Keys == {"site", "pops"} && SiteFieldSafe(e, "site", m["site"]) && SiteFieldSafe(e, "pops", m["pops"])
    ensures Printable(e, m)
  {
  }

  /** The smallest real case: a site whose other fields are all null or blank is printed as its set
      fields, and these are what is read back. */
  lemma OnePopSiteReloads(
      e: Fmt, fields: seq<Field>, name: string, domain: string, id: string, popDomain: string, roles: seq<Tree>)
    requires ScalarSafe(e, Str(name)) && ScalarSafe(e, Str(domain)) && ScalarSafe(e, Str(popDomain))
    requires TokenSafe(id) && ListSafe(roles) && WellKeyedFields(fields)
    requires ViewFields(fields) == OnePopSite(name, domain, SitePop(id, popDomain, roles))
    ensures ApplySource(e, map[], SetLinesText(Emit(e, "", OMap(fields))))
         == Ok(SetSite(name, domain, SetPop(id, popDomain, roles)))
  {
    SitePrinted(e, name, domain, id, popDomain, roles);
    MetaSafe(e, name, domain);
    PopSafe(e, id, popDomain, roles);
    SetSiteSafe(e, name, domain, SetPop(id, popDomain, roles));
    PrintThenReadAny(e, fields);
  }

  // ---------------------------------------------------------------- lists that come back elsewhere

  /** Entries are printed below `stack barge`, wherever their list is. */
  ghost predicate PrintsBarges(prefix: string) {
    forall key :: EntryHead(prefix, key) == "stack barge " + key
  }

  lemma ProductsPrefix()
    ensures PrintsBarges("stack products") && PrintsBarges("stack barges")
  {
    BargesPrefix();
    var p := "stack products";
    assert p[|p| - 4..][0] == 'u' && p[|p| - 8..] == "products";
  }

  lemma OverridesPrefix(head: string)
    ensures PrintsBarges(head + " stack_overrides barges")
  {
    var p := head + " stack_overrides barges";
    ContainsLast(head + " stack_overrides ", "barges");
    assert head + " stack_overrides " + "barges" == p;
    assert p[|p| - 4..][0] == 'r';
  }

  lemma {:induction false} SameEntries(e: Fmt, prefix: string, items: seq<OTree>)
    requires PrintsBarges(prefix) && AllMaps(items) && forall i | 0 <= i < |items| :: WellKeyed(items[i])
    requires EntriesSafe(e, Barges, Views(items))
    ensures EmitItems(e, prefix, items) == EmitItems(e, "stack barges", items)
    decreases |items|
  {
    if items != [] {
      var fields := items[0].fields;
      ViewsTail(items);
      assert Views(items)[0] == Map(ViewFields(fields));
      assert EntrySafe(e, Views(items)[0], "name");
      assert WellKeyed(items[0]);
      SameEntry(e, prefix, fields);
      assert forall i | 0 <= i < |items| - 1 :: Views(items[1..])[i] == Views(items)[i + 1];
      SameEntries(e, prefix, items[1..]);
    }
  }

  lemma SameEntry(e: Fmt, prefix: string, fields: seq<Field>)
    requires PrintsBarges(prefix) && WellKeyedFields(fields) && EntrySafe(e, Map(ViewFields(fields)), "name")
    ensures EmitItem(e, prefix, fields) == EmitItem(e, "stack barges", fields)
  {
    ProductsPrefix();
    EmitItemIs(e, prefix, fields);
    EmitItemIs(e, "stack barges", fields);
    ViewFieldsKeys(fields);
  }

  predicate BargeList(e: Fmt, items: seq<OTree>) {
    && KeyedSafe(e, Views(items), "name")
    && forall i | 0 <= i < |items| :: WellKeyed(items[i])
  }

  /** Wherever it was printed from, the list comes back as the barges of the site's own stack. */
  lemma BargesReadBack(e: Fmt, prefix: string, items: seq<OTree>)
    requires PrintsBarges(prefix) && BargeList(e, items)
    ensures ApplySource(e, map[], SetLinesText(Emit(e, prefix, OList(items))))
         == Ok(map["stack" := Map(map["barges" := List(Views(items))])])
  {
    KeyedSafeEntries(e, Barges, items);
    EmitKeyedList(e, prefix, items);
    SameEntries(e, prefix, items);
    KeyedListRoundTrip(e, Barges, map[], items);
    TextApplies(e, EmitItems(e, prefix, items), map["stack" := Map(map["barges" := List(Views(items))])]);
  }

  lemma ProductsLines(e: Fmt, o: OTree)
    ensures Emit(e, "", OMap([Field("stack", OMap([Field("products", o)]))])) == Emit(e, "stack products", o)
  {
    var f := Field("products", o);
    OneFieldLines(e, "stack", f);
    OneFieldLines(e, "", Field("stack", OMap([f])));
    assert Under("stack", "products") == "stack products";
  }

  /** The products of a stack come back as its barges. */
  lemma ProductsComeBackAsBarges(e: Fmt, items: seq<OTree>)
    requires BargeList(e, items)
    ensures var stack := OMap([Field("products", OList(items))]);
            && View(stack) == Map(map["products" := List(Views(items))])
            && ApplySource(e, map[], SetLinesText(Emit(e, "", OMap([Field("stack", stack)]))))
            == Ok(map["stack" := Map(map["barges" := List(Views(items))])])
  {
    var f := Field("products", OList(items));
    ProductsLines(e, OList(items));
    ProductsPrefix();
    BargesReadBack(e, "stack products", items);
    OneView(f);
  }

  lemma OneFieldLines(e: Fmt, prefix: string, f: Field)
    ensures Emit(e, prefix, OMap([f])) == Emit(e, Under(prefix, f.key), f.val)
  {
    assert EmitFields(e, prefix, [f]) == Emit(e, Under(prefix, f.key), f.val) + EmitFields(e, prefix, [f][1..]);
  }

  /** The barges with which a pop overrides the stack come back as the barges of the site's own
      stack, and the pop is gone. */
  lemma OverridesComeBackInTheSite(e: Fmt, id: string, items: seq<OTree>)
    requires BargeList(e, items) && id != ""
    ensures var overrides := OMap([Field("barges", OList(items))]);
            var pop := OMap([Field("id", OLeaf(Str(id))), Field("stack_overrides", overrides)]);
            && View(pop) == Map(map["id" := Leaf(Str(id)), "stack_overrides" := Map(map["barges" := List(Views(items))])])
            && ApplySource(e, map[], SetLinesText(Emit(e, "", OMap([Field("pops", OList([pop]))]))))
            == Ok(map["stack" := Map(map["barges" := List(Views(items))])])
  {
    var f := Field("barges", OList(items));
    var fields := [Field("id", OLeaf(Str(id))), Field("stack_overrides", OMap([f]))];
    OverridesLines(e, id, OList(items));
    OverridesPrefix("pop " + id);
    BargesReadBack(e, "pop " + id + " stack_overrides barges", items);
    OneView(f);
    TwoViews(fields[0], fields[1]);
  }

  lemma OverridesLines(e: Fmt, id: string, o: OTree)
    requires id != ""
    ensures var pop := OMap([Field("id", OLeaf(Str(id))), Field("stack_overrides", OMap([Field("barges", o)]))]);
            Emit(e, "", OMap([Field("pops", OList([pop]))])) == Emit(e, "pop " + id + " stack_overrides barges", o)
  {
    var f := Field("barges", o);
    var fields := [Field("id", OLeaf(Str(id))), Field("stack_overrides", OMap([f]))];
    OneFieldLines(e, "", Field("pops", OList([OMap(fields)])));
    PopLines(e, id, fields, OMap([f]));
    OneFieldLines(e, "pop " + id + " stack_overrides", f);
    assert Under("pop " + id + " stack_overrides", "barges") == "pop " + id + " stack_overrides barges";
  }

  lemma OneView(f: Field)
    ensures View(OMap([f])) == Map(map[f.key := View(f.val)])
  {
    assert ViewFields([f]) == map[f.key := View(f.val)] + ViewFields([f][1..]);
  }

  lemma TwoViews(f: Field, g: Field)
    requires f.key != g.key
    ensures View(OMap([f, g])) == Map(map[f.key := View(f.val), g.key := View(g.val)])
  {
    OneView(g);
    assert [f, g][1..] == [g];
  }

  lemma PopLines(e: Fmt, id: string, fields: seq<Field>, o: OTree)
    requires id != "" && fields == [Field("id", OLeaf(Str(id))), Field("stack_overrides", o)]
    ensures Emit(e, "pops", OList([OMap(fields)])) == Emit(e, "pop " + id + " stack_overrides", o)
  {
    var items := [OMap(fields)];
    assert AllMaps(items) && items[1..] == [];
    assert EmitItems(e, "pops", items) == EmitItem(e, "pops", fields) + EmitItems(e, "pops", items[1..]);
    assert EntryHead("pops", id) == "pop " + id by {
      assert "pops"[|"pops"| - 4..] == "pops";
    }
    assert fields[1..] == [Field("stack_overrides", o)] && fields[1..][1..] == [];
    assert "pop " + id + " " + "stack_overrides" == "pop " + id + " stack_overrides";
    assert EmitChildren(e, "pop " + id, fields[1..], "id") == Emit(e, "pop " + id + " stack_overrides", o);
    assert EmitChildren(e, "pop " + id, fields, "id") == EmitChildren(e, "pop " + id, fields[1..], "id");
  }
}
