/** deepMerge on mutable maps: nested maps are merged or copied, but lists are stored as they are,
    so the result shares exactly the maps inside the source's lists. */
module TugMerge {
  import opened TugTree
  import opened TugHeap

  // ---------------------------------------------------------------- maps inside lists

  /** `x` is a map inside a list of the tree, at any depth. */
  ghost predicate InLists(h: Heap, v: Value, t: Tree, x: MapNode)
    decreases t
  {
    match t
    case Map(m) =>
      v.VMap? && v.node in h && exists k | k in m && k in h[v.node] :: InLists(h, h[v.node][k], m[k], x)
    case List(_) => Reach(h, v, t, x)
    case _ => false
  }

  ghost predicate InListsKey(h: Heap, n: MapNode, m: TreeMap, k: string, x: MapNode) {
    k in m && n in h && k in h[n] && InLists(h, h[n][k], m[k], x)
  }

  lemma InListsMap(h: Heap, n: MapNode, m: TreeMap, x: MapNode)
    ensures InLists(h, VMap(n), Map(m), x) <==> exists k :: InListsKey(h, n, m, k, x)
  {
    if InLists(h, VMap(n), Map(m), x) {
      var k :| k in m && k in h[n] && InLists(h, h[n][k], m[k], x);
      assert InListsKey(h, n, m, k, x);
    }
    if k :| InListsKey(h, n, m, k, x) {
      assert k in m && k in h[n] && InLists(h, h[n][k], m[k], x);
    }
  }

  lemma {:induction false} InListsReach(h: Heap, v: Value, t: Tree, x: MapNode)
    requires InLists(h, v, t, x)
    ensures Reach(h, v, t, x)
    decreases t
  {
    if t.Map? {
      InListsMap(h, v.node, t.m, x);
      var k :| InListsKey(h, v.node, t.m, k, x);
      InListsReach(h, h[v.node][k], t.m[k], x);
      assert ReachKey(h, v.node, t.m, k, x);
      ReachMap(h, v.node, t.m, x);
    }
  }

  lemma InListsReachKey(h: Heap, n: MapNode, m: TreeMap, k: string, x: MapNode)
    requires InListsKey(h, n, m, k, x)
    ensures ReachKey(h, n, m, k, x) && x in h && Reach(h, VMap(n), Map(m), x)
  {
    InListsReach(h, h[n][k], m[k], x);
    ReachMap(h, n, m, x);
  }

  lemma {:induction false} SameInLists(h: Heap, h': Heap, v: Value, t: Tree, x: MapNode)
    requires Rep(h, v, t) && SameIn(h, h', v, t)
    ensures InLists(h', v, t, x) <==> InLists(h, v, t, x)
    decreases t
  {
    match t
    case Map(m) =>
      var n := v.node;
      ReachMap(h, n, m, n);
      forall k | k in m ensures InListsKey(h', n, m, k, x) <==> InListsKey(h, n, m, k, x) {
        SameInKey(h, h', n, m, k);
        SameInLists(h, h', h[n][k], m[k], x);
      }
      InListsMap(h, n, m, x);
      InListsMap(h', n, m, x);
      assert forall k :: InListsKey(h', n, m, k, x) <==> InListsKey(h, n, m, k, x);
    case List(_) => SameReach(h, h', v, t, x);
    case _ =>
  }

  // ---------------------------------------------------------------- what a merge does

  ghost predicate Apart(h: Heap, dst: MapNode, dm: TreeMap, src: MapNode, sm: TreeMap) {
    forall x | x in h :: !(Reach(h, VMap(dst), Map(dm), x) && Reach(h, VMap(src), Map(sm), x))
  }

  /** The destination holds the merge. Only its own maps changed; it is made of them, of new maps and
      of the maps inside the source's lists, all of which it holds inside its own lists. */
  ghost predicate Merges(h: Heap, h': Heap, dst: MapNode, dm: TreeMap, src: MapNode, sm: TreeMap) {
    var r := DeepMerge(dm, sm);
    && RepMap(h', dst, r) && h.Keys <= h'.Keys
    && (forall x | x in h && !Reach(h, VMap(dst), Map(dm), x) :: h'[x] == h[x])
    && (forall x | x in h' && Reach(h', VMap(dst), Map(r), x) ::
          Reach(h, VMap(dst), Map(dm), x) || x !in h || InLists(h, VMap(src), Map(sm), x))
    && (forall x | x in h && InLists(h, VMap(src), Map(sm), x) :: InLists(h', VMap(dst), Map(r), x))
    && (forall k | k in sm && sm[k].List? && src in h && k in h[src] :: h'[dst][k] == h[src][k])
  }

  /** The keys in `todo` are still to be merged. */
  function Left(dm: TreeMap, sm: TreeMap, todo: set<string>): TreeMap {
    var all := DeepMerge(dm, sm);
    map k | k in dm.Keys + (sm.Keys - todo) :: if k in sm && k !in todo then all[k] else dm[k]
  }

  /** Where a map below key `j` of the destination comes from. */
  ghost predicate Origin(h: Heap, dst: MapNode, dm: TreeMap, src: MapNode, sm: TreeMap, todo: set<string>, j: string, x: MapNode) {
    ReachKey(h, dst, dm, j, x) || x !in h || (j !in todo && InListsKey(h, src, sm, j, x))
  }

  ghost predicate Inputs(h: Heap, dst: MapNode, dm: TreeMap, src: MapNode, sm: TreeMap) {
    RepMap(h, dst, dm) && RepMap(h, src, sm) && Apart(h, dst, dm, src, sm)
  }

  /** What the destination holds while `todo` is still to go. */
  ghost predicate HoldsSoFar(h: Heap, h1: Heap, dst: MapNode, dm: TreeMap, src: MapNode, sm: TreeMap, todo: set<string>) {
    var l := Left(dm, sm, todo);
    && RepMap(h1, dst, l)
    && (forall j, x | x in h1 && ReachKey(h1, dst, l, j, x) :: Origin(h, dst, dm, src, sm, todo, j, x))
    && (forall j, x | x in h && j !in todo && InListsKey(h, src, sm, j, x) :: InListsKey(h1, dst, l, j, x))
    && (forall k | k in sm && k !in todo && sm[k].List? && src in h && k in h[src] :: h1[dst][k] == h[src][k])
  }

  /** What has not changed yet. */
  ghost predicate KeepsSoFar(h: Heap, h1: Heap, dst: MapNode, dm: TreeMap, todo: set<string>) {
    && h.Keys <= h1.Keys
    && (forall x | x in h && !Reach(h, VMap(dst), Map(dm), x) :: h1[x] == h[x])
    && (forall k | k in todo && k in dm && dst in h && k in h[dst] :: dst in h1 && k in h1[dst] && h1[dst][k] == h[dst][k])
    && (forall k, x | k in todo && x in h && ReachKey(h, dst, dm, k, x) :: h1[x] == h[x])
  }

  /** The merge with `todo` still to go. */
  ghost predicate Merging(h: Heap, h1: Heap, dst: MapNode, dm: TreeMap, src: MapNode, sm: TreeMap, todo: set<string>) {
    todo <= sm.Keys && HoldsSoFar(h, h1, dst, dm, src, sm, todo) && KeepsSoFar(h, h1, dst, dm, todo)
  }

  lemma MergingStart(h: Heap, dst: MapNode, dm: TreeMap, src: MapNode, sm: TreeMap)
    requires Inputs(h, dst, dm, src, sm)
    ensures Merging(h, h, dst, dm, src, sm, sm.Keys)
  {
    assert Left(dm, sm, sm.Keys) == dm;
  }

  lemma MergingEnd(h: Heap, h1: Heap, dst: MapNode, dm: TreeMap, src: MapNode, sm: TreeMap)
    requires Inputs(h, dst, dm, src, sm) && Merging(h, h1, dst, dm, src, sm, {})
    ensures Merges(h, h1, dst, dm, src, sm)
  {
    var r := DeepMerge(dm, sm);
    assert Left(dm, sm, {}) == r;
    forall x | x in h1 && Reach(h1, VMap(dst), Map(r), x)
      ensures Reach(h, VMap(dst), Map(dm), x) || x !in h || InLists(h, VMap(src), Map(sm), x)
    {
      EndReach(h, h1, dst, dm, src, sm, x);
    }
    forall x | x in h && InLists(h, VMap(src), Map(sm), x) ensures InLists(h1, VMap(dst), Map(r), x) {
      InListsMap(h, src, sm, x);
      InListsMap(h1, dst, r, x);
    }
  }

  lemma EndReach(h: Heap, h1: Heap, dst: MapNode, dm: TreeMap, src: MapNode, sm: TreeMap, x: MapNode)
    requires dst in h && h.Keys <= h1.Keys && Reach(h1, VMap(dst), Map(DeepMerge(dm, sm)), x)
    requires forall j | ReachKey(h1, dst, DeepMerge(dm, sm), j, x) :: Origin(h, dst, dm, src, sm, {}, j, x)
    ensures Reach(h, VMap(dst), Map(dm), x) || x !in h || InLists(h, VMap(src), Map(sm), x)
  {
    ReachMap(h1, dst, DeepMerge(dm, sm), x);
    ReachMap(h, dst, dm, x);
    InListsMap(h, src, sm, x);
  }

  // ---------------------------------------------------------------- one key

  /** A key still to be merged holds what it did at the start. */
  lemma TodoKey(h: Heap, h1: Heap, dst: MapNode, dm: TreeMap, src: MapNode, sm: TreeMap, todo: set<string>, k: string)
    requires Inputs(h, dst, dm, src, sm) && Merging(h, h1, dst, dm, src, sm, todo) && k in todo
    ensures var l := Left(dm, sm, todo);
            (k in l <==> k in dm) && (k in dm ==> l[k] == dm[k] && Rep(h1, h1[dst][k], dm[k]))
    ensures forall x :: ReachKey(h1, dst, Left(dm, sm, todo), k, x) <==> ReachKey(h, dst, dm, k, x)
  {
    if k in dm {
      forall x | x in h && Reach(h, h[dst][k], dm[k], x) ensures x in h1 && h1[x] == h[x] {
        assert ReachKey(h, dst, dm, k, x);
      }
      Unchanged(h, h1, h[dst][k], dm[k]);
    }
  }

  /** The source's values are as they were. */
  lemma SourceKey(h: Heap, h1: Heap, dst: MapNode, dm: TreeMap, src: MapNode, sm: TreeMap, todo: set<string>, k: string)
    requires Inputs(h, dst, dm, src, sm) && Merging(h, h1, dst, dm, src, sm, todo) && k in sm
    ensures src in h1 && h1[src] == h[src] && SameIn(h, h1, h[src][k], sm[k]) && Rep(h1, h[src][k], sm[k])
    ensures forall x :: Reach(h1, h[src][k], sm[k], x) <==> Reach(h, h[src][k], sm[k], x)
    ensures forall x :: InLists(h1, h[src][k], sm[k], x) <==> InLists(h, h[src][k], sm[k], x)
  {
    ReachMap(h, src, sm, src);
    forall x | x in h && Reach(h, h[src][k], sm[k], x) ensures x in h1 && h1[x] == h[x] {
      assert ReachKey(h, src, sm, k, x);
      ReachMap(h, src, sm, x);
    }
    Unchanged(h, h1, h[src][k], sm[k]);
    forall x ensures InLists(h1, h[src][k], sm[k], x) <==> InLists(h, h[src][k], sm[k], x) {
      SameInLists(h, h1, h[src][k], sm[k], x);
    }
  }

  /** A map inside a list of a key to be merged is not in the destination yet. */
  lemma NotYet(h: Heap, h1: Heap, dst: MapNode, dm: TreeMap, src: MapNode, sm: TreeMap, todo: set<string>, k: string, x: MapNode)
    requires Inputs(h, dst, dm, src, sm) && Merging(h, h1, dst, dm, src, sm, todo) && k in todo
    requires InListsKey(h, src, sm, k, x)
    ensures x in h && !Reach(h1, VMap(dst), Map(Left(dm, sm, todo)), x)
  {
    InListsReachKey(h, src, sm, k, x);
    ReachMap(h, dst, dm, dst);
    ReachMap(h, dst, dm, x);
    ReachMap(h1, dst, Left(dm, sm, todo), x);
    if j :| ReachKey(h1, dst, Left(dm, sm, todo), j, x) {
      assert Origin(h, dst, dm, src, sm, todo, j, x);
      if InListsKey(h, src, sm, j, x) {
        InListsReachKey(h, src, sm, j, x);
      }
    }
  }

  /** What merging key `k` did between `h1` and `h2`. */
  ghost predicate KeyMerged(
      h: Heap, h1: Heap, h2: Heap, dst: MapNode, dm: TreeMap, src: MapNode, sm: TreeMap, k: string, v: Value) {
    && k in sm && h1.Keys <= h2.Keys && dst in h1 && dst in h2 && h2[dst] == h1[dst][k := v]
    && var t := DeepMerge(dm, sm)[k];
       && Rep(h2, v, t)
       && (forall x | x in h2 && Reach(h2, v, t, x) ::
             ReachKey(h, dst, dm, k, x) || x !in h1 || InListsKey(h, src, sm, k, x))
       && (forall x | x in h1 && x != dst && !ReachKey(h, dst, dm, k, x) :: h2[x] == h1[x])
       && (forall x | x in h && InListsKey(h, src, sm, k, x) :: InLists(h2, v, t, x))
       && (sm[k].List? && src in h && k in h[src] ==> v == h[src][k])
  }

  lemma LeftNext(dm: TreeMap, sm: TreeMap, todo: set<string>, k: string)
    requires k in todo && todo <= sm.Keys
    ensures Left(dm, sm, todo - {k}) == Left(dm, sm, todo)[k := DeepMerge(dm, sm)[k]]
  {
  }

  lemma MergedReplaces(
      h: Heap, h1: Heap, h2: Heap, dst: MapNode, dm: TreeMap, src: MapNode, sm: TreeMap, todo: set<string>, k: string, v: Value)
    requires Inputs(h, dst, dm, src, sm) && Merging(h, h1, dst, dm, src, sm, todo) && k in todo
    requires KeyMerged(h, h1, h2, dst, dm, src, sm, k, v)
    ensures Replaces(h1, h2, dst, Left(dm, sm, todo), k, v, DeepMerge(dm, sm)[k])
  {
    var l := Left(dm, sm, todo);
    var t := DeepMerge(dm, sm)[k];
    TodoKey(h, h1, dst, dm, src, sm, todo, k);
    forall x | x in h2 && Reach(h2, v, t, x) ensures ReachKey(h1, dst, l, k, x) || !Reach(h1, VMap(dst), Map(l), x) {
      if InListsKey(h, src, sm, k, x) {
        NotYet(h, h1, dst, dm, src, sm, todo, k, x);
      }
    }
    forall j, x | x in h1 && j != k && ReachKey(h1, dst, l, j, x) ensures x in h2 && h2[x] == h1[x] {
      assert !ReachKey(h1, dst, l, j, dst) && !ReachKey(h1, dst, l, k, x);
    }
  }

  lemma OtherInLists(
      h1: Heap, h2: Heap, dst: MapNode, l: TreeMap, k: string, v: Value, t: Tree, j: string, x: MapNode)
    requires Replaces(h1, h2, dst, l, k, v, t) && j != k && InListsKey(h1, dst, l, j, x)
    ensures InListsKey(h2, dst, l[k := t], j, x)
  {
    forall y | y in h1 && Reach(h1, h1[dst][j], l[j], y) ensures y in h2 && h2[y] == h1[y] {
      assert ReachKey(h1, dst, l, j, y);
    }
    SameInLists(h1, h2, h1[dst][j], l[j], x);
  }

  /** The frame of one key: nothing outside the destination changed, nor anything still to be merged. */
  lemma MergeKeyFrame(
      h: Heap, h1: Heap, h2: Heap, dst: MapNode, dm: TreeMap, src: MapNode, sm: TreeMap, todo: set<string>, k: string, v: Value)
    requires Inputs(h, dst, dm, src, sm) && Merging(h, h1, dst, dm, src, sm, todo) && k in todo
    requires KeyMerged(h, h1, h2, dst, dm, src, sm, k, v)
    ensures forall x | x in h && !Reach(h, VMap(dst), Map(dm), x) :: x in h2 && h2[x] == h[x]
    ensures forall q, x | q in todo - {k} && x in h && ReachKey(h, dst, dm, q, x) :: x in h2 && h2[x] == h[x]
  {
    ReachMap(h, dst, dm, dst);
    forall x | x in h && !Reach(h, VMap(dst), Map(dm), x) ensures x in h2 && h2[x] == h[x] {
      ReachMap(h, dst, dm, x);
    }
    forall q, x | q in todo - {k} && x in h && ReachKey(h, dst, dm, q, x) ensures x in h2 && h2[x] == h[x] {
      assert !ReachKey(h, dst, dm, q, dst) && !ReachKey(h, dst, dm, k, x);
    }
  }

  lemma MergeKeyLists(
      h: Heap, h1: Heap, h2: Heap, dst: MapNode, dm: TreeMap, src: MapNode, sm: TreeMap, todo: set<string>, k: string, v: Value,
      j: string, x: MapNode)
    requires Inputs(h, dst, dm, src, sm) && Merging(h, h1, dst, dm, src, sm, todo) && k in todo
    requires KeyMerged(h, h1, h2, dst, dm, src, sm, k, v)
    requires x in h && j !in todo - {k} && InListsKey(h, src, sm, j, x)
    ensures InListsKey(h2, dst, Left(dm, sm, todo)[k := DeepMerge(dm, sm)[k]], j, x)
  {
    MergedReplaces(h, h1, h2, dst, dm, src, sm, todo, k, v);
    if j != k {
      OtherInLists(h1, h2, dst, Left(dm, sm, todo), k, v, DeepMerge(dm, sm)[k], j, x);
    }
  }

  lemma MergeKeyOrigin(
      h: Heap, h1: Heap, h2: Heap, dst: MapNode, dm: TreeMap, src: MapNode, sm: TreeMap, todo: set<string>, k: string, v: Value,
      j: string, x: MapNode)
    requires Inputs(h, dst, dm, src, sm) && Merging(h, h1, dst, dm, src, sm, todo) && k in todo
    requires KeyMerged(h, h1, h2, dst, dm, src, sm, k, v)
    requires x in h2 && ReachKey(h2, dst, Left(dm, sm, todo)[k := DeepMerge(dm, sm)[k]], j, x)
    ensures Origin(h, dst, dm, src, sm, todo - {k}, j, x)
  {
    var l := Left(dm, sm, todo);
    MergedReplaces(h, h1, h2, dst, dm, src, sm, todo, k, v);
    ReplaceKey(h1, h2, dst, l, k, v, DeepMerge(dm, sm)[k]);
    if j != k {
      assert ReachKey(h1, dst, l, j, x) && x in h1;
      assert Origin(h, dst, dm, src, sm, todo, j, x);
    }
  }

  lemma MergeKey(
      h: Heap, h1: Heap, h2: Heap, dst: MapNode, dm: TreeMap, src: MapNode, sm: TreeMap, todo: set<string>, k: string, v: Value)
    requires Inputs(h, dst, dm, src, sm) && Merging(h, h1, dst, dm, src, sm, todo) && k in todo
    requires KeyMerged(h, h1, h2, dst, dm, src, sm, k, v)
    ensures Merging(h, h2, dst, dm, src, sm, todo - {k})
  {
    var l := Left(dm, sm, todo);
    var t := DeepMerge(dm, sm)[k];
    MergedReplaces(h, h1, h2, dst, dm, src, sm, todo, k, v);
    LeftNext(dm, sm, todo, k);
    ReplaceKey(h1, h2, dst, l, k, v, t);
    MergeKeyFrame(h, h1, h2, dst, dm, src, sm, todo, k, v);
    forall j, x | x in h2 && ReachKey(h2, dst, l[k := t], j, x) ensures Origin(h, dst, dm, src, sm, todo - {k}, j, x) {
      MergeKeyOrigin(h, h1, h2, dst, dm, src, sm, todo, k, v, j, x);
    }
    forall j, x | x in h && j !in todo - {k} && InListsKey(h, src, sm, j, x) ensures InListsKey(h2, dst, l[k := t], j, x) {
      MergeKeyLists(h, h1, h2, dst, dm, src, sm, todo, k, v, j, x);
    }
  }

  // ---------------------------------------------------------------- the three ways to merge a key

  /** A change to a map that a value does not reach. */
  lemma Beside(h: Heap, h': Heap, n: MapNode, entries: map<string, Value>, v: Value, t: Tree)
    requires Rep(h, v, t) && n in h && h' == h[n := entries] && !Reach(h, v, t, n)
    ensures SameIn(h, h', v, t) && Rep(h', v, t) && forall x :: Reach(h', v, t, x) <==> Reach(h, v, t, x)
  {
    Unchanged(h, h', v, t);
  }

  /** The source's value at a key does not reach the destination's own map. */
  lemma SourceMissesDst(
      h: Heap, h1: Heap, dst: MapNode, dm: TreeMap, src: MapNode, sm: TreeMap, todo: set<string>, k: string)
    requires Inputs(h, dst, dm, src, sm) && Merging(h, h1, dst, dm, src, sm, todo) && k in sm
    ensures !Reach(h1, h[src][k], sm[k], dst)
  {
    SourceKey(h, h1, dst, dm, src, sm, todo, k);
    ReachMap(h, dst, dm, dst);
    if ReachKey(h, src, sm, k, dst) {
      ReachMap(h, src, sm, dst);
    }
  }

  /** A scalar or a list is stored as it is. */
  lemma Overwritten(
      h: Heap, h1: Heap, h2: Heap, dst: MapNode, dm: TreeMap, src: MapNode, sm: TreeMap, todo: set<string>, k: string)
    requires Inputs(h, dst, dm, src, sm) && Merging(h, h1, dst, dm, src, sm, todo) && k in todo && !sm[k].Map?
    requires h2 == h1[dst := h1[dst][k := h[src][k]]]
    ensures KeyMerged(h, h1, h2, dst, dm, src, sm, k, h[src][k])
  {
    var v, t := h[src][k], sm[k];
    SourceKey(h, h1, dst, dm, src, sm, todo, k);
    SourceMissesDst(h, h1, dst, dm, src, sm, todo, k);
    Beside(h1, h2, dst, h1[dst][k := v], v, t);
    forall x | x in h2 && Reach(h2, v, t, x) ensures InListsKey(h, src, sm, k, x) {
      assert Reach(h, v, t, x);
    }
    forall x | x in h && InListsKey(h, src, sm, k, x) ensures InLists(h2, v, t, x) {
      assert Reach(h, v, t, x);
    }
  }

  /** What the two maps to be merged are made of, in terms of the start. */
  lemma BelowKey(
      h: Heap, h1: Heap, dst: MapNode, dm: TreeMap, src: MapNode, sm: TreeMap, todo: set<string>, k: string,
      c: MapNode, vm: MapNode, x: MapNode)
    requires Inputs(h, dst, dm, src, sm) && Merging(h, h1, dst, dm, src, sm, todo) && k in todo
    requires sm[k].Map? && k in dm && dm[k].Map? && h1[dst][k] == VMap(c) && h[src][k] == VMap(vm)
    ensures Reach(h1, VMap(c), dm[k], x) <==> ReachKey(h, dst, dm, k, x)
    ensures InLists(h1, VMap(vm), sm[k], x) <==> InListsKey(h, src, sm, k, x)
  {
    TodoKey(h, h1, dst, dm, src, sm, todo, k);
    SourceKey(h, h1, dst, dm, src, sm, todo, k);
    assert ReachKey(h1, dst, Left(dm, sm, todo), k, x) <==> Reach(h1, VMap(c), dm[k], x);
  }

  lemma DstNotBelow(
      h: Heap, h1: Heap, dst: MapNode, dm: TreeMap, src: MapNode, sm: TreeMap, todo: set<string>, k: string,
      c: MapNode, vm: MapNode)
    requires Inputs(h, dst, dm, src, sm) && Merging(h, h1, dst, dm, src, sm, todo) && k in todo
    requires sm[k].Map? && k in dm && dm[k].Map? && h1[dst][k] == VMap(c) && h[src][k] == VMap(vm)
    ensures dst in h1 && !Reach(h1, VMap(c), dm[k], dst)
  {
    BelowKey(h, h1, dst, dm, src, sm, todo, k, c, vm, dst);
  }

  /** A map is merged into the map that is there. */
  lemma MergedInto(
      h: Heap, h1: Heap, h2: Heap, dst: MapNode, dm: TreeMap, src: MapNode, sm: TreeMap, todo: set<string>, k: string,
      c: MapNode, vm: MapNode)
    requires Inputs(h, dst, dm, src, sm) && Merging(h, h1, dst, dm, src, sm, todo) && k in todo
    requires sm[k].Map? && k in dm && dm[k].Map? && h1[dst][k] == VMap(c) && h[src][k] == VMap(vm)
    requires Merges(h1, h2, c, dm[k].m, vm, sm[k].m)
    ensures KeyMerged(h, h1, h2, dst, dm, src, sm, k, VMap(c))
  {
    DstNotBelow(h, h1, dst, dm, src, sm, todo, k, c, vm);
    forall x
      ensures Reach(h1, VMap(c), dm[k], x) <==> ReachKey(h, dst, dm, k, x)
      ensures InLists(h1, VMap(vm), sm[k], x) <==> InListsKey(h, src, sm, k, x)
    {
      BelowKey(h, h1, dst, dm, src, sm, todo, k, c, vm, x);
    }
    BelowIsKey(h, h1, h2, dst, dm, src, sm, k, c, vm);
  }

  lemma BelowIsKey(
      h: Heap, h1: Heap, h2: Heap, dst: MapNode, dm: TreeMap, src: MapNode, sm: TreeMap, k: string, c: MapNode, vm: MapNode)
    requires k in sm && sm[k].Map? && k in dm && dm[k].Map? && dst in h1 && k in h1[dst] && h1[dst][k] == VMap(c)
    requires Merges(h1, h2, c, dm[k].m, vm, sm[k].m) && !Reach(h1, VMap(c), dm[k], dst) && h.Keys <= h1.Keys
    requires forall x :: Reach(h1, VMap(c), dm[k], x) <==> ReachKey(h, dst, dm, k, x)
    requires forall x :: InLists(h1, VMap(vm), sm[k], x) <==> InListsKey(h, src, sm, k, x)
    ensures KeyMerged(h, h1, h2, dst, dm, src, sm, k, VMap(c))
  {
    assert h1[dst][k := VMap(c)] == h1[dst];
  }

  /** The two maps to be merged below a key are themselves apart. */
  lemma InputsBelow(
      h: Heap, h1: Heap, dst: MapNode, dm: TreeMap, src: MapNode, sm: TreeMap, todo: set<string>, k: string, c: MapNode, vm: MapNode)
    requires Inputs(h, dst, dm, src, sm) && Merging(h, h1, dst, dm, src, sm, todo) && k in todo
    requires sm[k].Map? && k in dm && dm[k].Map? && h1[dst][k] == VMap(c) && h[src][k] == VMap(vm)
    ensures Inputs(h1, c, dm[k].m, vm, sm[k].m)
  {
    var l := Left(dm, sm, todo);
    TodoKey(h, h1, dst, dm, src, sm, todo, k);
    SourceKey(h, h1, dst, dm, src, sm, todo, k);
    forall x | x in h1 ensures !(Reach(h1, VMap(c), dm[k], x) && Reach(h1, VMap(vm), sm[k], x)) {
      if Reach(h1, VMap(c), dm[k], x) && Reach(h1, VMap(vm), sm[k], x) {
        assert ReachKey(h1, dst, l, k, x);
        assert ReachKey(h, dst, dm, k, x) && ReachKey(h, src, sm, k, x);
        ReachMap(h, dst, dm, x);
        ReachMap(h, src, sm, x);
      }
    }
  }

  lemma NewIsEmpty(h: Heap, n: MapNode)
    requires n in h && h[n] == map[]
    ensures RepMap(h, n, map[]) && forall x :: Reach(h, VMap(n), Map(map[]), x) <==> x == n
  {
    forall x ensures Reach(h, VMap(n), Map(map[]), x) <==> x == n {
      ReachMap(h, n, map[], x);
      assert forall k :: !ReachKey(h, n, map[], k, x);
    }
    assert forall k, x :: !ReachKey(h, n, map[], k, x);
  }

  /** A new map and a map of the source are apart. */
  lemma InputsOfCopy(
      h: Heap, h1: Heap, h1': Heap, dst: MapNode, dm: TreeMap, src: MapNode, sm: TreeMap, todo: set<string>, k: string,
      cp: MapNode, vm: MapNode)
    requires Inputs(h, dst, dm, src, sm) && Merging(h, h1, dst, dm, src, sm, todo) && k in todo
    requires sm[k].Map? && h[src][k] == VMap(vm) && cp !in h1 && h1' == h1[cp := map[]]
    ensures Inputs(h1', cp, map[], vm, sm[k].m)
    ensures forall x :: Reach(h1', VMap(vm), sm[k], x) <==> Reach(h, VMap(vm), sm[k], x)
    ensures forall x :: InLists(h1', VMap(vm), sm[k], x) <==> InLists(h, VMap(vm), sm[k], x)
  {
    SourceKey(h, h1, dst, dm, src, sm, todo, k);
    NewIsEmpty(h1', cp);
    Unchanged(h1, h1', VMap(vm), sm[k]);
    forall x ensures InLists(h1', VMap(vm), sm[k], x) <==> InLists(h, VMap(vm), sm[k], x) {
      SameInLists(h1, h1', VMap(vm), sm[k], x);
    }
  }

  /** The source's map at `k` has been merged into a new map `cp`. */
  ghost predicate Copies(
      h: Heap, h1: Heap, h1': Heap, h2: Heap, dst: MapNode, dm: TreeMap, src: MapNode, sm: TreeMap,
      todo: set<string>, k: string, cp: MapNode, vm: MapNode) {
    && Inputs(h, dst, dm, src, sm) && Merging(h, h1, dst, dm, src, sm, todo) && k in todo
    && sm[k].Map? && src in h && k in h[src] && h[src][k] == VMap(vm) && cp !in h1 && h1' == h1[cp := map[]]
    && (k in dm ==> !dm[k].Map?)
    && Merges(h1', h2, cp, map[], vm, sm[k].m) && dst in h2
  }

  lemma CopyTree(dm: TreeMap, sm: TreeMap, k: string)
    requires k in sm && sm[k].Map? && (k in dm ==> !dm[k].Map?)
    ensures DeepMerge(dm, sm)[k] == Map(DeepMerge(map[], sm[k].m))
  {
  }

  lemma CopyReach(
      h: Heap, h1: Heap, h1': Heap, h2: Heap, dst: MapNode, dm: TreeMap, src: MapNode, sm: TreeMap,
      todo: set<string>, k: string, cp: MapNode, vm: MapNode, x: MapNode)
    requires Copies(h, h1, h1', h2, dst, dm, src, sm, todo, k, cp, vm) && x in h2 && Reach(h2, VMap(cp), Map(DeepMerge(map[], sm[k].m)), x)
    ensures x != dst && (x !in h1 || InListsKey(h, src, sm, k, x))
  {
    InputsOfCopy(h, h1, h1', dst, dm, src, sm, todo, k, cp, vm);
    NewIsEmpty(h1', cp);
    if InLists(h1', VMap(vm), sm[k], x) {
      assert InListsKey(h, src, sm, k, x);
      NotYet(h, h1, dst, dm, src, sm, todo, k, x);
      ReachMap(h1, dst, Left(dm, sm, todo), dst);
    }
  }

  lemma CopyKeeps(
      h: Heap, h1: Heap, h1': Heap, h2: Heap, dst: MapNode, dm: TreeMap, src: MapNode, sm: TreeMap,
      todo: set<string>, k: string, cp: MapNode, vm: MapNode, x: MapNode)
    requires Copies(h, h1, h1', h2, dst, dm, src, sm, todo, k, cp, vm) && x in h1
    ensures x in h2 && h2[x] == h1[x]
  {
    NewIsEmpty(h1', cp);
    assert !Reach(h1', VMap(cp), Map(map[]), x);
  }

  lemma CopyLists(
      h: Heap, h1: Heap, h1': Heap, h2: Heap, dst: MapNode, dm: TreeMap, src: MapNode, sm: TreeMap,
      todo: set<string>, k: string, cp: MapNode, vm: MapNode, x: MapNode)
    requires Copies(h, h1, h1', h2, dst, dm, src, sm, todo, k, cp, vm) && x in h && InListsKey(h, src, sm, k, x)
    ensures InLists(h2, VMap(cp), Map(DeepMerge(map[], sm[k].m)), x)
  {
    InputsOfCopy(h, h1, h1', dst, dm, src, sm, todo, k, cp, vm);
    assert InLists(h1', VMap(vm), sm[k], x) && x in h1';
  }

  lemma CopyMissesDst(
      h: Heap, h1: Heap, h1': Heap, h2: Heap, dst: MapNode, dm: TreeMap, src: MapNode, sm: TreeMap,
      todo: set<string>, k: string, cp: MapNode, vm: MapNode)
    requires Copies(h, h1, h1', h2, dst, dm, src, sm, todo, k, cp, vm)
    ensures Rep(h2, VMap(cp), Map(DeepMerge(map[], sm[k].m))) && dst in h2
    ensures !Reach(h2, VMap(cp), Map(DeepMerge(map[], sm[k].m)), dst)
  {
    if Reach(h2, VMap(cp), Map(DeepMerge(map[], sm[k].m)), dst) {
      CopyReach(h, h1, h1', h2, dst, dm, src, sm, todo, k, cp, vm, dst);
    }
  }

  /** Storing the copy in the destination leaves the copy as it is. */
  lemma CopyStays(
      h: Heap, h1: Heap, h1': Heap, h2: Heap, h3: Heap, dst: MapNode, dm: TreeMap, src: MapNode, sm: TreeMap,
      todo: set<string>, k: string, cp: MapNode, vm: MapNode)
    requires Copies(h, h1, h1', h2, dst, dm, src, sm, todo, k, cp, vm) && h3 == h2[dst := h2[dst][k := VMap(cp)]]
    ensures var t := Map(DeepMerge(map[], sm[k].m));
            && Rep(h2, VMap(cp), t) && SameIn(h2, h3, VMap(cp), t) && Rep(h3, VMap(cp), t)
            && forall x :: Reach(h3, VMap(cp), t, x) <==> Reach(h2, VMap(cp), t, x)
  {
    CopyMissesDst(h, h1, h1', h2, dst, dm, src, sm, todo, k, cp, vm);
    Beside(h2, h3, dst, h2[dst][k := VMap(cp)], VMap(cp), Map(DeepMerge(map[], sm[k].m)));
  }

  lemma CopyListsStay(
      h: Heap, h1: Heap, h1': Heap, h2: Heap, h3: Heap, dst: MapNode, dm: TreeMap, src: MapNode, sm: TreeMap,
      todo: set<string>, k: string, cp: MapNode, vm: MapNode, x: MapNode)
    requires Copies(h, h1, h1', h2, dst, dm, src, sm, todo, k, cp, vm) && h3 == h2[dst := h2[dst][k := VMap(cp)]]
    requires x in h && InListsKey(h, src, sm, k, x)
    ensures InLists(h3, VMap(cp), Map(DeepMerge(map[], sm[k].m)), x)
  {
    CopyStays(h, h1, h1', h2, h3, dst, dm, src, sm, todo, k, cp, vm);
    CopyLists(h, h1, h1', h2, dst, dm, src, sm, todo, k, cp, vm, x);
    SameInLists(h2, h3, VMap(cp), Map(DeepMerge(map[], sm[k].m)), x);
  }

  lemma CopyRest(
      h: Heap, h1: Heap, h1': Heap, h2: Heap, h3: Heap, dst: MapNode, dm: TreeMap, src: MapNode, sm: TreeMap,
      todo: set<string>, k: string, cp: MapNode, vm: MapNode, x: MapNode)
    requires Copies(h, h1, h1', h2, dst, dm, src, sm, todo, k, cp, vm) && h3 == h2[dst := h2[dst][k := VMap(cp)]] && x in h1
    ensures x in h3 && h3[x] == if x == dst then h1[dst][k := VMap(cp)] else h1[x]
  {
    CopyKeeps(h, h1, h1', h2, dst, dm, src, sm, todo, k, cp, vm, x);
  }

  /** A map that meets none is copied. */
  lemma Copied(
      h: Heap, h1: Heap, h1': Heap, h2: Heap, h3: Heap, dst: MapNode, dm: TreeMap, src: MapNode, sm: TreeMap,
      todo: set<string>, k: string, cp: MapNode, vm: MapNode)
    requires Copies(h, h1, h1', h2, dst, dm, src, sm, todo, k, cp, vm) && h3 == h2[dst := h2[dst][k := VMap(cp)]]
    ensures KeyMerged(h, h1, h3, dst, dm, src, sm, k, VMap(cp))
  {
    var t := DeepMerge(dm, sm)[k];
    CopyTree(dm, sm, k);
    CopyStays(h, h1, h1', h2, h3, dst, dm, src, sm, todo, k, cp, vm);
    forall x | x in h3 && Reach(h3, VMap(cp), t, x) ensures x !in h1 || InListsKey(h, src, sm, k, x) {
      CopyReach(h, h1, h1', h2, dst, dm, src, sm, todo, k, cp, vm, x);
    }
    forall x | x in h1 ensures x in h3 && h3[x] == if x == dst then h1[dst][k := VMap(cp)] else h1[x] {
      CopyRest(h, h1, h1', h2, h3, dst, dm, src, sm, todo, k, cp, vm, x);
    }
    forall x | x in h && InListsKey(h, src, sm, k, x) ensures InLists(h3, VMap(cp), t, x) {
      CopyListsStay(h, h1, h1', h2, h3, dst, dm, src, sm, todo, k, cp, vm, x);
    }
  }

  lemma OverwriteStep(
      h: Heap, h1: Heap, h2: Heap, dst: MapNode, dm: TreeMap, src: MapNode, sm: TreeMap, todo: set<string>, k: string)
    requires Inputs(h, dst, dm, src, sm) && Merging(h, h1, dst, dm, src, sm, todo) && k in todo && !sm[k].Map?
    requires h2 == h1[dst := h1[dst][k := h[src][k]]]
    ensures Merging(h, h2, dst, dm, src, sm, todo - {k})
  {
    Overwritten(h, h1, h2, dst, dm, src, sm, todo, k);
    MergeKey(h, h1, h2, dst, dm, src, sm, todo, k, h[src][k]);
  }

  lemma IntoStep(
      h: Heap, h1: Heap, h2: Heap, dst: MapNode, dm: TreeMap, src: MapNode, sm: TreeMap, todo: set<string>, k: string,
      c: MapNode, vm: MapNode)
    requires Inputs(h, dst, dm, src, sm) && Merging(h, h1, dst, dm, src, sm, todo) && k in todo
    requires sm[k].Map? && k in dm && dm[k].Map? && h1[dst][k] == VMap(c) && h[src][k] == VMap(vm)
    requires Merges(h1, h2, c, dm[k].m, vm, sm[k].m)
    ensures Merging(h, h2, dst, dm, src, sm, todo - {k})
  {
    MergedInto(h, h1, h2, dst, dm, src, sm, todo, k, c, vm);
    MergeKey(h, h1, h2, dst, dm, src, sm, todo, k, VMap(c));
  }

  lemma CopyStep(
      h: Heap, h1: Heap, h1': Heap, h2: Heap, h3: Heap, dst: MapNode, dm: TreeMap, src: MapNode, sm: TreeMap,
      todo: set<string>, k: string, cp: MapNode, vm: MapNode)
    requires Copies(h, h1, h1', h2, dst, dm, src, sm, todo, k, cp, vm) && h3 == h2[dst := h2[dst][k := VMap(cp)]]
    ensures Merging(h, h3, dst, dm, src, sm, todo - {k})
  {
    Copied(h, h1, h1', h2, h3, dst, dm, src, sm, todo, k, cp, vm);
    MergeKey(h, h1, h3, dst, dm, src, sm, todo, k, VMap(cp));
  }

  // ---------------------------------------------------------------- deepMerge

  /** deepMerge, for any order of the source's keys. */
  method DeepMergeInPlace(dst: MapNode, src: MapNode, ghost nodes: set<MapNode>, ghost dm: TreeMap, ghost sm: TreeMap)
    returns (ghost nodes': set<MapNode>)
    requires Inputs(Snap(nodes), dst, dm, src, sm)
    modifies nodes
    ensures nodes <= nodes' && fresh(nodes' - nodes)
    ensures Merges(old(Snap(nodes)), Snap(nodes'), dst, dm, src, sm)
    decreases Map(sm), 4
  {
    ghost var h := Snap(nodes);
    MergingStart(h, dst, dm, src, sm);
    nodes' := MergeKeys(dst, src, nodes, dm, sm, h);
    MergingEnd(h, Snap(nodes'), dst, dm, src, sm);
  }

  /** The loop over the source's keys. */
  method MergeKeys(dst: MapNode, src: MapNode, ghost nodes: set<MapNode>, ghost dm: TreeMap, ghost sm: TreeMap, ghost h: Heap)
    returns (ghost nodes': set<MapNode>)
    requires src in nodes && src.entries.Keys == sm.Keys
    requires Inputs(h, dst, dm, src, sm) && Merging(h, Snap(nodes), dst, dm, src, sm, sm.Keys)
    modifies nodes
    ensures nodes <= nodes' && fresh(nodes' - nodes)
    ensures Merging(h, Snap(nodes'), dst, dm, src, sm, {})
    decreases Map(sm), 3
  {
    nodes' := nodes;
    var todo := src.entries.Keys;
    while todo != {}
      invariant nodes <= nodes' && fresh(nodes' - nodes)
      invariant Merging(h, Snap(nodes'), dst, dm, src, sm, todo)
      decreases |todo|
    {
      nodes', todo := MergeNext(dst, src, nodes', dm, sm, todo, h);
    }
  }

  /** One round of the loop: some key is merged. */
  method MergeNext(
      dst: MapNode, src: MapNode, ghost nodes: set<MapNode>, ghost dm: TreeMap, ghost sm: TreeMap, todo: set<string>, ghost h: Heap)
    returns (ghost nodes': set<MapNode>, todo': set<string>)
    requires Inputs(h, dst, dm, src, sm) && Merging(h, Snap(nodes), dst, dm, src, sm, todo) && todo != {}
    modifies nodes
    ensures nodes <= nodes' && fresh(nodes' - nodes)
    ensures Merging(h, Snap(nodes'), dst, dm, src, sm, todo') && |todo'| < |todo|
    decreases Map(sm), 2
  {
    var k :| k in todo;
    nodes' := MergeOne(dst, src, k, nodes, dm, sm, todo, h);
    todo' := todo - {k};
  }

  /** The body of the loop for one key. */
  method MergeOne(
      dst: MapNode, src: MapNode, k: string, ghost nodes: set<MapNode>, ghost dm: TreeMap, ghost sm: TreeMap,
      ghost todo: set<string>, ghost h: Heap)
    returns (ghost nodes': set<MapNode>)
    requires Inputs(h, dst, dm, src, sm) && Merging(h, Snap(nodes), dst, dm, src, sm, todo) && k in todo
    modifies nodes
    ensures nodes <= nodes' && fresh(nodes' - nodes)
    ensures Merging(h, Snap(nodes'), dst, dm, src, sm, todo - {k})
    decreases Map(sm), 1
  {
    SourceKey(h, Snap(nodes), dst, dm, src, sm, todo, k);
    TodoKey(h, Snap(nodes), dst, dm, src, sm, todo, k);
    if src.entries[k].VMap? {
      if k in dst.entries && dst.entries[k].VMap? {
        nodes' := MergeBelow(dst, src, k, nodes, dm, sm, todo, h);
      } else {
        nodes' := CopyBelow(dst, src, k, nodes, dm, sm, todo, h);
      }
    } else {
      Overwrite(dst, src, k, nodes, dm, sm, todo, h);
      nodes' := nodes;
    }
  }

  method MergeBelow(
      dst: MapNode, src: MapNode, k: string, ghost nodes: set<MapNode>, ghost dm: TreeMap, ghost sm: TreeMap,
      ghost todo: set<string>, ghost h: Heap)
    returns (ghost nodes': set<MapNode>)
    requires Inputs(h, dst, dm, src, sm) && Merging(h, Snap(nodes), dst, dm, src, sm, todo) && k in todo
    requires src in nodes && src.entries == h[src] && sm[k].Map? && k in dm && dm[k].Map?
    requires src.entries[k].VMap? && k in dst.entries && dst.entries[k].VMap?
    modifies nodes
    ensures nodes <= nodes' && fresh(nodes' - nodes)
    ensures Merging(h, Snap(nodes'), dst, dm, src, sm, todo - {k})
    decreases Map(sm), 0
  {
    ghost var h1 := Snap(nodes);
    var c, vm := dst.entries[k].node, src.entries[k].node;
    InputsBelow(h, h1, dst, dm, src, sm, todo, k, c, vm);
    nodes' := DeepMergeInPlace(c, vm, nodes, dm[k].m, sm[k].m);
    IntoStep(h, h1, Snap(nodes'), dst, dm, src, sm, todo, k, c, vm);
  }

  lemma InputsOfNew(h: Heap, h': Heap, cp: MapNode, vm: MapNode, m: TreeMap)
    requires RepMap(h, vm, m) && cp !in h && h' == h[cp := map[]]
    ensures Inputs(h', cp, map[], vm, m)
  {
    NewIsEmpty(h', cp);
    Unchanged(h, h', VMap(vm), Map(m));
  }

  /** A copy of a map: its entries merged into a new one. */
  method CopyOf(vm: MapNode, ghost nodes: set<MapNode>, ghost m: TreeMap)
    returns (cp: MapNode, ghost nodes': set<MapNode>, ghost start: Heap)
    requires RepMap(Snap(nodes), vm, m)
    modifies nodes
    ensures nodes <= nodes' && fresh(nodes' - nodes) && cp !in nodes && cp in nodes'
    ensures start == old(Snap(nodes))[cp := map[]] && Merges(start, Snap(nodes'), cp, map[], vm, m)
    decreases Map(m), 5
  {
    ghost var h := Snap(nodes);
    cp := new MapNode();
    ghost var with := nodes + {cp};
    start := Snap(with);
    assert start == h[cp := map[]];
    InputsOfNew(h, start, cp, vm, m);
    nodes' := DeepMergeInPlace(cp, vm, with, map[], m);
    assert nodes' - nodes <= (nodes' - with) + {cp};
  }

  method CopyBelow(
      dst: MapNode, src: MapNode, k: string, ghost nodes: set<MapNode>, ghost dm: TreeMap, ghost sm: TreeMap,
      ghost todo: set<string>, ghost h: Heap)
    returns (ghost nodes': set<MapNode>)
    requires Inputs(h, dst, dm, src, sm) && Merging(h, Snap(nodes), dst, dm, src, sm, todo) && k in todo
    requires src in nodes && src.entries == h[src] && sm[k].Map? && src.entries[k].VMap? && (k in dm ==> !dm[k].Map?)
    modifies nodes
    ensures nodes <= nodes' && fresh(nodes' - nodes)
    ensures Merging(h, Snap(nodes'), dst, dm, src, sm, todo - {k})
    decreases Map(sm), 0
  {
    ghost var h1 := Snap(nodes);
    ghost var start;
    var cp;
    var vm := src.entries[k].node;
    SourceKey(h, h1, dst, dm, src, sm, todo, k);
    cp, nodes', start := CopyOf(vm, nodes, sm[k].m);
    StoreCopy(dst, src, k, cp, vm, nodes', dm, sm, todo, h, h1, start);
  }

  method StoreCopy(
      dst: MapNode, src: MapNode, k: string, cp: MapNode, vm: MapNode, ghost nodes: set<MapNode>, ghost dm: TreeMap,
      ghost sm: TreeMap, ghost todo: set<string>, ghost h: Heap, ghost h1: Heap, ghost h1': Heap)
    requires Copies(h, h1, h1', Snap(nodes), dst, dm, src, sm, todo, k, cp, vm)
    modifies nodes
    ensures Merging(h, Snap(nodes), dst, dm, src, sm, todo - {k})
  {
    ghost var h2 := Snap(nodes);
    Put(dst, k, VMap(cp), nodes);
    CopyStep(h, h1, h1', h2, Snap(nodes), dst, dm, src, sm, todo, k, cp, vm);
  }

  method Overwrite(
      dst: MapNode, src: MapNode, k: string, ghost nodes: set<MapNode>, ghost dm: TreeMap, ghost sm: TreeMap,
      ghost todo: set<string>, ghost h: Heap)
    requires Inputs(h, dst, dm, src, sm) && Merging(h, Snap(nodes), dst, dm, src, sm, todo) && k in todo
    requires src in nodes && src.entries == h[src] && !sm[k].Map?
    modifies nodes
    ensures Merging(h, Snap(nodes), dst, dm, src, sm, todo - {k})
  {
    ghost var h1 := Snap(nodes);
    Put(dst, k, src.entries[k], nodes);
    OverwriteStep(h, h1, Snap(nodes), dst, dm, src, sm, todo, k);
  }
}
