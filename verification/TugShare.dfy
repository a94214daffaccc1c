/** What a merged tree shares with its source: the maps inside the source's lists, and no other. */
module TugShare {
  import opened TugTree
  import opened TugHeap
  import opened TugMerge

  // ---------------------------------------------------------------- right after the merge

  /** The merge only reads its source. */
  lemma SourceUnchanged(h: Heap, h': Heap, dst: MapNode, dm: TreeMap, src: MapNode, sm: TreeMap)
    requires Inputs(h, dst, dm, src, sm) && Merges(h, h', dst, dm, src, sm)
    ensures RepMap(h', src, sm)
    ensures forall x | x in h && Reach(h, VMap(src), Map(sm), x) :: h'[x] == h[x]
    ensures forall x :: Reach(h', VMap(src), Map(sm), x) <==> Reach(h, VMap(src), Map(sm), x)
  {
    Unchanged(h, h', VMap(src), Map(sm));
  }

  /** `x` belongs to both trees. */
  ghost predicate Shared(h: Heap, dst: MapNode, m: TreeMap, src: MapNode, sm: TreeMap, x: MapNode) {
    Reach(h, VMap(dst), Map(m), x) && Reach(h, VMap(src), Map(sm), x)
  }

  /** The two trees share exactly the maps that were inside the source's lists. */
  lemma SharedExactly(h: Heap, h': Heap, dst: MapNode, dm: TreeMap, src: MapNode, sm: TreeMap, x: MapNode)
    requires Inputs(h, dst, dm, src, sm) && Merges(h, h', dst, dm, src, sm)
    ensures Shared(h', dst, DeepMerge(dm, sm), src, sm, x) <==> InLists(h, VMap(src), Map(sm), x)
  {
    SourceUnchanged(h, h', dst, dm, src, sm);
    assert Reach(h, VMap(src), Map(sm), x) ==> x in h;
    if InLists(h, VMap(src), Map(sm), x) {
      InListsReach(h, VMap(src), Map(sm), x);
      InListsReach(h', VMap(dst), Map(DeepMerge(dm, sm)), x);
    }
  }

  // ---------------------------------------------------------------- in terms of the trees

  predicate HasMap(t: Tree) {
    match t
    case Map(_) => true
    case List(ts) => exists i :: 0 <= i < |ts| && HasMap(ts[i])
    case _ => false
  }

  /** Some list of the tree, at any depth, holds a map. */
  predicate ListsHoldMap(t: Tree) {
    match t
    case Map(m) => exists k | k in m :: ListsHoldMap(m[k])
    case List(_) => HasMap(t)
    case _ => false
  }

  lemma {:induction false} MapReached(h: Heap, v: Value, t: Tree) returns (x: MapNode)
    requires Rep(h, v, t) && HasMap(t)
    ensures Reach(h, v, t, x)
    decreases t
  {
    match t
    case Map(m) =>
      x := v.node;
      ReachMap(h, v.node, m, x);
    case List(ts) =>
      var i :| 0 <= i < |ts| && HasMap(ts[i]);
      x := MapReached(h, v.items[i], ts[i]);
      assert ReachItem(h, v.items, ts, i, x);
      ReachList(h, v.items, ts, x);
  }

  lemma {:induction false} ReachedIsMap(h: Heap, v: Value, t: Tree, x: MapNode)
    requires Reach(h, v, t, x)
    ensures HasMap(t)
    decreases t
  {
    if t.List? {
      ReachList(h, v.items, t.items, x);
      var i :| ReachItem(h, v.items, t.items, i, x);
      ReachedIsMap(h, v.items[i], t.items[i], x);
    }
  }

  lemma {:induction false} MapInLists(h: Heap, v: Value, t: Tree) returns (x: MapNode)
    requires Rep(h, v, t) && ListsHoldMap(t)
    ensures InLists(h, v, t, x)
    decreases t
  {
    if t.Map? {
      var k :| k in t.m && ListsHoldMap(t.m[k]);
      x := MapInLists(h, h[v.node][k], t.m[k]);
      assert InListsKey(h, v.node, t.m, k, x);
      InListsMap(h, v.node, t.m, x);
    } else {
      x := MapReached(h, v, t);
    }
  }

  lemma {:induction false} InListsIsMap(h: Heap, v: Value, t: Tree, x: MapNode)
    requires InLists(h, v, t, x)
    ensures ListsHoldMap(t)
    decreases t
  {
    if t.Map? {
      InListsMap(h, v.node, t.m, x);
      var k :| InListsKey(h, v.node, t.m, k, x);
      InListsIsMap(h, h[v.node][k], t.m[k], x);
    } else {
      ReachedIsMap(h, v, t, x);
    }
  }

  /** The merge shares a map with its source iff a list of the source holds a map. */
  lemma SharesIffListsHoldMap(h: Heap, h': Heap, dst: MapNode, dm: TreeMap, src: MapNode, sm: TreeMap)
    requires Inputs(h, dst, dm, src, sm) && Merges(h, h', dst, dm, src, sm)
    ensures (exists x :: x in h && Shared(h', dst, DeepMerge(dm, sm), src, sm, x)) <==> ListsHoldMap(Map(sm))
  {
    if x :| x in h && Shared(h', dst, DeepMerge(dm, sm), src, sm, x) {
      SharedExactly(h, h', dst, dm, src, sm, x);
      InListsIsMap(h, VMap(src), Map(sm), x);
    }
    if ListsHoldMap(Map(sm)) {
      var x := MapInLists(h, VMap(src), Map(sm));
      InListsReach(h, VMap(src), Map(sm), x);
      SharedExactly(h, h', dst, dm, src, sm, x);
    }
  }

  // ---------------------------------------------------------------- along map keys

  lemma {:induction false} AtReach(h: Heap, n: MapNode, m: TreeMap, p: seq<string>, cur: MapNode)
    requires RepMap(h, n, m) && HasPath(m, p) && At(h, n, p, cur)
    ensures Reach(h, VMap(n), Map(m), cur)
    decreases |p|
  {
    if p != [] {
      var k := p[0];
      assert Rep(h, h[n][k], m[k]);
      AtReach(h, h[n][k].node, m[k].m, p[1..], cur);
      assert ReachKey(h, n, m, k, cur);
    }
    ReachMap(h, n, m, cur);
  }

  /** A map that keys lead to is not inside a list. */
  lemma {:induction false} KeysMissLists(h: Heap, n: MapNode, m: TreeMap, p: seq<string>, cur: MapNode)
    requires RepMap(h, n, m) && HasPath(m, p) && At(h, n, p, cur)
    ensures !InLists(h, VMap(n), Map(m), cur)
    decreases |p|
  {
    InListsMap(h, n, m, cur);
    if j :| InListsKey(h, n, m, j, cur) {
      InListsReachKey(h, n, m, j, cur);
      if p != [] {
        var k := p[0];
        assert Rep(h, h[n][k], m[k]);
        AtReach(h, h[n][k].node, m[k].m, p[1..], cur);
        assert ReachKey(h, n, m, k, cur);
        KeysMissLists(h, h[n][k].node, m[k].m, p[1..], cur);
      }
    }
  }

  /** No map that keys lead to in the result is one of the source's. */
  lemma NoSharingAlongKeys(
      h: Heap, h': Heap, dst: MapNode, dm: TreeMap, src: MapNode, sm: TreeMap, p: seq<string>, cur: MapNode)
    requires Inputs(h, dst, dm, src, sm) && Merges(h, h', dst, dm, src, sm)
    requires HasPath(DeepMerge(dm, sm), p) && At(h', dst, p, cur)
    ensures !Reach(h', VMap(src), Map(sm), cur)
  {
    AtReach(h', dst, DeepMerge(dm, sm), p, cur);
    KeysMissLists(h', dst, DeepMerge(dm, sm), p, cur);
    SharedExactly(h, h', dst, dm, src, sm, cur);
    if InLists(h, VMap(src), Map(sm), cur) {
      InListsReach(h, VMap(src), Map(sm), cur);
    }
  }

  // ---------------------------------------------------------------- later changes

  /** A list entry that the result took over is the source's own: changing it in place changes both. */
  lemma SharedEntryChanges(
      h: Heap, h1: Heap, h2: Heap, dst: MapNode, dm: TreeMap, src: MapNode, sm: TreeMap, k: string, i: nat, entry: Tree)
    requires Inputs(h, dst, dm, src, sm) && Merges(h, h1, dst, dm, src, sm)
    requires k in sm && sm[k].List? && EntryChanged(h1, h2, dst, k, sm[k].items, i, entry)
    ensures var changed := List(sm[k].items[i := entry]);
            RepMap(h2, dst, DeepMerge(dm, sm)[k := changed]) && RepMap(h2, src, sm[k := changed])
  {
    SourceUnchanged(h, h1, dst, dm, src, sm);
    SourceRoot(h, h1, dst, dm, src, sm);
    assert Rep(h1, h1[src][k], sm[k]);
    var vs := h1[dst][k].items;
    assert DeepMerge(dm, sm)[k] == sm[k];
    UpItem(h1, h2, vs, sm[k].items, i, entry);
    UpKey(h1, h2, dst, DeepMerge(dm, sm), k, List(sm[k].items[i := entry]));
    UpKey(h1, h2, src, sm, k, List(sm[k].items[i := entry]));
  }

  lemma SourceRoot(h: Heap, h': Heap, dst: MapNode, dm: TreeMap, src: MapNode, sm: TreeMap)
    requires Inputs(h, dst, dm, src, sm) && Merges(h, h', dst, dm, src, sm)
    ensures src in h && src in h' && h'[src] == h[src]
    ensures forall k | k in sm && sm[k].List? :: h'[dst][k] == h'[src][k]
  {
    ReachMap(h, src, sm, src);
  }

  /** After the merge the entry is changed by setKeyedList, at the top level of the result. */
  method SetShared(
      e: Fmt, dst: MapNode, k: string, keyField: string, key: string, rest: seq<string>, val: Tree,
      ghost nodes: set<MapNode>, ghost m: TreeMap, ghost ts: seq<Tree>)
    returns (ghost nodes': set<MapNode>)
    requires RepMap(Snap(nodes), dst, m) && rest != [] && MapFree(val)
    requires k in m && m[k] == List(ts) && FindEntry(e, ts, keyField, key) < |ts|
    modifies nodes
    ensures nodes <= nodes' && fresh(nodes' - nodes)
    ensures var i := FindEntry(e, ts, keyField, key);
            EntryChanged(old(Snap(nodes)), Snap(nodes'), dst, k, ts, i, Map(SetNested(e, ts[i].m, rest, val)))
  {
    assert MkPath(m, []) == m;
    nodes' := SetEntry(e, dst, k, keyField, key, rest, val, nodes, dst, m, []);
  }

  /** A merge, and then an update of an entry of one of the lists that came from the source: the
      source is updated as well. */
  method MergeThenSet(
      e: Fmt, dst: MapNode, src: MapNode, k: string, keyField: string, key: string, rest: seq<string>, val: Tree,
      ghost nodes: set<MapNode>, ghost dm: TreeMap, ghost sm: TreeMap)
    returns (ghost nodes': set<MapNode>)
    requires Inputs(Snap(nodes), dst, dm, src, sm) && rest != [] && MapFree(val)
    requires k in sm && sm[k].List? && FindEntry(e, sm[k].items, keyField, key) < |sm[k].items|
    modifies nodes
    ensures nodes <= nodes' && fresh(nodes' - nodes)
    ensures var changed := List(SetKeyedItems(e, sm[k].items, keyField, key, rest, val));
            RepMap(Snap(nodes'), dst, DeepMerge(dm, sm)[k := changed]) && RepMap(Snap(nodes'), src, sm[k := changed])
  {
    ghost var h := Snap(nodes);
    ghost var merged;
    merged := DeepMergeInPlace(dst, src, nodes, dm, sm);
    ghost var h1 := Snap(merged);
    ghost var ts := sm[k].items;
    ghost var i := FindEntry(e, ts, keyField, key);
    nodes' := SetShared(e, dst, k, keyField, key, rest, val, merged, DeepMerge(dm, sm), ts);
    SharedEntryChanges(h, h1, Snap(nodes'), dst, dm, src, sm, k, i, Map(SetNested(e, ts[i].m, rest, val)));
  }

  // ---------------------------------------------------------------- the smallest site

  function PopA(): TreeMap {
    map["id" := Leaf(Str("a"))]
  }

  function SiteOf(pop: TreeMap): TreeMap {
    map["pops" := List([Map(pop)])]
  }

  function NamedSite(): TreeMap {
    SiteOf(PopA()["name" := Leaf(Str("b"))])
  }

  lemma PopHeap(h: Heap, entry: MapNode)
    requires entry in h && h[entry] == map["id" := VTree(Leaf(Str("a")))]
    ensures RepMap(h, entry, PopA()) && forall x :: Reach(h, VMap(entry), Map(PopA()), x) <==> x == entry
  {
    forall k, x ensures !ReachKey(h, entry, PopA(), k, x) {
    }
    forall x ensures Reach(h, VMap(entry), Map(PopA()), x) <==> x == entry {
      ReachMap(h, entry, PopA(), x);
    }
  }

  lemma SiteHeap(h: Heap, src: MapNode, entry: MapNode)
    requires entry in h && h[entry] == map["id" := VTree(Leaf(Str("a")))]
    requires src in h && src != entry && h[src] == map["pops" := VList([VMap(entry)])]
    ensures RepMap(h, src, SiteOf(PopA()))
    ensures forall x :: Reach(h, VMap(src), Map(SiteOf(PopA())), x) <==> x == src || x == entry
  {
    var vs, ts := [VMap(entry)], [Map(PopA())];
    var m := SiteOf(PopA());
    PopHeap(h, entry);
    forall i, x ensures ReachItem(h, vs, ts, i, x) <==> i == 0 && x == entry {
    }
    assert RepList(h, vs, ts);
    forall x ensures Reach(h, VList(vs), List(ts), x) <==> x == entry {
      ReachList(h, vs, ts, x);
      assert ReachItem(h, vs, ts, 0, entry);
    }
    forall k, x ensures ReachKey(h, src, m, k, x) <==> k == "pops" && x == entry {
    }
    forall x ensures Reach(h, VMap(src), Map(m), x) <==> x == src || x == entry {
      ReachMap(h, src, m, x);
      assert ReachKey(h, src, m, "pops", entry);
    }
  }

  lemma PopsOnly(h: Heap, dst: MapNode, src: MapNode, entry: MapNode)
    requires src in h && h[src] == map["pops" := VList([VMap(entry)])] && RepMap(h, dst, SiteOf(PopA()))
    requires forall k | k in SiteOf(PopA()) && SiteOf(PopA())[k].List? :: h[dst][k] == h[src][k]
    ensures h[dst] == h[src]
  {
    assert h[dst].Keys == {"pops"};
    assert "pops" in SiteOf(PopA()) && SiteOf(PopA())["pops"].List?;
  }

  /** The merge of a site with one pop into an empty tree takes over the pop's own map. */
  lemma PopIsShared(h: Heap, h': Heap, dst: MapNode, src: MapNode, entry: MapNode)
    requires Inputs(h, dst, map[], src, SiteOf(PopA())) && Merges(h, h', dst, map[], src, SiteOf(PopA()))
    requires src in h && h[src] == map["pops" := VList([VMap(entry)])]
    ensures dst in h' && src in h' && h'[dst] == h'[src] == map["pops" := VList([VMap(entry)])]
  {
    SourceRoot(h, h', dst, map[], src, SiteOf(PopA()));
    MergeIntoEmpty(SiteOf(PopA()));
    PopsOnly(h', dst, src, entry);
  }

  lemma PopFound(e: Fmt)
    ensures FindEntry(e, SiteOf(PopA())["pops"].items, "id", "a") == 0
    ensures SetKeyedItems(e, SiteOf(PopA())["pops"].items, "id", "a", ["name"], Leaf(Str("b")))
         == [Map(PopA()["name" := Leaf(Str("b"))])]
    ensures SiteOf(PopA())["pops" := List([Map(PopA()["name" := Leaf(Str("b"))])])] == NamedSite()
  {
    assert IsEntry(e, Map(PopA()), "id", "a");
  }

  lemma TwoSites(h: Heap, dst: MapNode, src: MapNode, entry: MapNode)
    requires entry in h && h[entry] == map["id" := VTree(Leaf(Str("a")))]
    requires src in h && src != entry && h[src] == map["pops" := VList([VMap(entry)])]
    requires dst in h && dst != src && dst != entry && h[dst] == map[]
    ensures Inputs(h, dst, map[], src, SiteOf(PopA()))
  {
    SiteHeap(h, src, entry);
    NewIsEmpty(h, dst);
  }

  /** Naming the pop of the merged tree names the pop of the source. */
  method NamePopOfMerge(e: Fmt) returns (dst: MapNode, src: MapNode, ghost nodes: set<MapNode>)
    ensures fresh(nodes) && dst != src
    ensures RepMap(Snap(nodes), dst, NamedSite()) && RepMap(Snap(nodes), src, NamedSite())
  {
    ghost var three;
    dst, src, three := EmptyAndSite();
    MergeIntoEmpty(SiteOf(PopA()));
    PopFound(e);
    nodes := MergeThenSet(e, dst, src, "pops", "id", "a", ["name"], Leaf(Str("b")), three, map[], SiteOf(PopA()));
  }

  method EmptyAndSite() returns (dst: MapNode, src: MapNode, ghost nodes: set<MapNode>)
    ensures fresh(nodes) && dst != src && Inputs(Snap(nodes), dst, map[], src, SiteOf(PopA()))
  {
    dst := new MapNode();
    src := new MapNode();
    var entry := new MapNode();
    entry.entries := map["id" := VTree(Leaf(Str("a")))];
    src.entries := map["pops" := VList([VMap(entry)])];
    nodes := {dst, src, entry};
    TwoSites(Snap(nodes), dst, src, entry);
  }
}
