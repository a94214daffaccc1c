/** The update operations on maps that are changed in place, against the functions of TugTree.
    Every nested map is an object, also inside lists; scalars are values. */
module TugHeap {
  import opened Text
  import opened TugTree

  class MapNode {
    var entries: map<string, Value>

    constructor ()
      ensures entries == map[]
    {
      entries := map[];
    }
  }

  /** An assignment to one key of one map. */
  method Put(n: MapNode, k: string, v: Value, ghost nodes: set<MapNode>)
    requires n in nodes
    modifies n
    ensures Snap(nodes) == old(Snap(nodes))[n := old(n.entries)[k := v]]
  {
    ghost var h := Snap(nodes);
    n.entries := n.entries[k := v];
    assert forall x | x in nodes && x != n :: Snap(nodes)[x] == h[x];
  }

  /** `VTree` holds a scalar or nil. */
  datatype Value = VTree(t: Tree) | VList(items: seq<Value>) | VMap(node: MapNode)

  /** The contents of a set of maps at one moment. */
  type Heap = map<MapNode, map<string, Value>>

  ghost function Snap(nodes: set<MapNode>): Heap
    reads nodes
  {
    map x | x in nodes :: x.entries
  }

  // ---------------------------------------------------------------- representation

  /** `x` is one of the maps that make up the tree `t` held by `v`. */
  ghost predicate Reach(h: Heap, v: Value, t: Tree, x: MapNode)
    decreases t
  {
    x in h &&
    match t
    case Map(m) =>
      v.VMap? && v.node in h &&
      (x == v.node || exists k | k in m && k in h[v.node] :: Reach(h, h[v.node][k], m[k], x))
    case List(ts) => v.VList? && exists i | 0 <= i < |ts| && i < |v.items| :: Reach(h, v.items[i], ts[i], x)
    case _ => false
  }

  /** It is below key `k` of map `n`. */
  ghost predicate ReachKey(h: Heap, n: MapNode, m: TreeMap, k: string, x: MapNode) {
    k in m && n in h && k in h[n] && Reach(h, h[n][k], m[k], x)
  }

  /** It is in item `i` of a list. */
  ghost predicate ReachItem(h: Heap, vs: seq<Value>, ts: seq<Tree>, i: int, x: MapNode) {
    0 <= i < |ts| && i < |vs| && Reach(h, vs[i], ts[i], x)
  }

  lemma ReachMap(h: Heap, n: MapNode, m: TreeMap, x: MapNode)
    ensures Reach(h, VMap(n), Map(m), x) <==> x in h && n in h && (x == n || exists k :: ReachKey(h, n, m, k, x))
  {
    if Reach(h, VMap(n), Map(m), x) && x != n {
      var k :| k in m && k in h[n] && Reach(h, h[n][k], m[k], x);
      assert ReachKey(h, n, m, k, x);
    }
    if x in h && exists k :: ReachKey(h, n, m, k, x) {
      var k :| ReachKey(h, n, m, k, x);
      assert k in m && k in h[n] && Reach(h, h[n][k], m[k], x);
    }
  }

  lemma ReachList(h: Heap, vs: seq<Value>, ts: seq<Tree>, x: MapNode)
    ensures Reach(h, VList(vs), List(ts), x) <==> x in h && exists i :: ReachItem(h, vs, ts, i, x)
  {
    if Reach(h, VList(vs), List(ts), x) {
      var i :| 0 <= i < |ts| && i < |vs| && Reach(h, vs[i], ts[i], x);
      assert ReachItem(h, vs, ts, i, x);
    }
    if x in h && exists i :: ReachItem(h, vs, ts, i, x) {
      var i :| ReachItem(h, vs, ts, i, x);
      assert 0 <= i < |ts| && i < |vs| && Reach(h, vs[i], ts[i], x);
    }
  }

  /** `v` holds exactly the tree `t`, and no map occurs in it twice. */
  ghost predicate Rep(h: Heap, v: Value, t: Tree)
    decreases t, 1
  {
    match t
    case Map(m) => v.VMap? && RepMap(h, v.node, m)
    case List(ts) => v.VList? && RepList(h, v.items, ts)
    case _ => v == VTree(t)
  }

  ghost predicate RepMap(h: Heap, n: MapNode, m: TreeMap)
    decreases Map(m), 0
  {
    && n in h && h[n].Keys == m.Keys
    && (forall k | k in m :: Rep(h, h[n][k], m[k]))
    && (forall k :: !ReachKey(h, n, m, k, n))
    && (forall j, k, x | x in h && j != k :: !(ReachKey(h, n, m, j, x) && ReachKey(h, n, m, k, x)))
  }

  ghost predicate RepList(h: Heap, vs: seq<Value>, ts: seq<Tree>)
    decreases List(ts), 0
  {
    && |vs| == |ts|
    && (forall i | 0 <= i < |ts| :: Rep(h, vs[i], ts[i]))
    && (forall i, j, x | x in h && i != j :: !(ReachItem(h, vs, ts, i, x) && ReachItem(h, vs, ts, j, x)))
  }

  // ---------------------------------------------------------------- frames

  /** `h'` holds what `h` does in all maps of `t`. */
  ghost predicate SameIn(h: Heap, h': Heap, v: Value, t: Tree) {
    forall x | x in h && Reach(h, v, t, x) :: x in h' && h'[x] == h[x]
  }

  lemma SameInKey(h: Heap, h': Heap, n: MapNode, m: TreeMap, k: string)
    requires SameIn(h, h', VMap(n), Map(m)) && k in m && n in h && k in h[n]
    ensures n in h' && h'[n] == h[n] && SameIn(h, h', h[n][k], m[k])
  {
    ReachMap(h, n, m, n);
    forall x | x in h && Reach(h, h[n][k], m[k], x) ensures Reach(h, VMap(n), Map(m), x) {
      assert ReachKey(h, n, m, k, x);
      ReachMap(h, n, m, x);
    }
  }

  lemma SameInItem(h: Heap, h': Heap, vs: seq<Value>, ts: seq<Tree>, i: nat)
    requires SameIn(h, h', VList(vs), List(ts)) && i < |ts| && i < |vs|
    ensures SameIn(h, h', vs[i], ts[i])
  {
    forall x | x in h && Reach(h, vs[i], ts[i], x) ensures Reach(h, VList(vs), List(ts), x) {
      assert ReachItem(h, vs, ts, i, x);
      ReachList(h, vs, ts, x);
    }
  }

  /** A value none of whose maps changed has the same maps. */
  lemma {:induction false} SameReach(h: Heap, h': Heap, v: Value, t: Tree, x: MapNode)
    requires Rep(h, v, t) && SameIn(h, h', v, t)
    ensures Reach(h', v, t, x) <==> Reach(h, v, t, x)
    decreases t
  {
    match t
    case Map(m) =>
      var n := v.node;
      ReachMap(h, n, m, n);
      forall k | k in m ensures ReachKey(h', n, m, k, x) <==> ReachKey(h, n, m, k, x) {
        SameInKey(h, h', n, m, k);
        SameReach(h, h', h[n][k], m[k], x);
      }
      SameSomeKey(h, h', n, m, x);
    case List(ts) =>
      forall i | 0 <= i < |ts| ensures ReachItem(h', v.items, ts, i, x) <==> ReachItem(h, v.items, ts, i, x) {
        SameInItem(h, h', v.items, ts, i);
        SameReach(h, h', v.items[i], ts[i], x);
      }
      SameSomeItem(h, h', v.items, ts, x);
    case _ =>
  }

  lemma SameSomeKey(h: Heap, h': Heap, n: MapNode, m: TreeMap, x: MapNode)
    requires n in h && SameIn(h, h', VMap(n), Map(m))
    requires forall k | k in m :: ReachKey(h', n, m, k, x) <==> ReachKey(h, n, m, k, x)
    ensures Reach(h', VMap(n), Map(m), x) <==> Reach(h, VMap(n), Map(m), x)
  {
    ReachMap(h, n, m, x);
    ReachMap(h', n, m, x);
    ReachMap(h, n, m, n);
    assert forall k :: ReachKey(h', n, m, k, x) <==> ReachKey(h, n, m, k, x);
    assert forall k | ReachKey(h, n, m, k, x) :: x in h;
  }

  lemma SameSomeItem(h: Heap, h': Heap, vs: seq<Value>, ts: seq<Tree>, x: MapNode)
    requires SameIn(h, h', VList(vs), List(ts))
    requires forall i | 0 <= i < |ts| :: ReachItem(h', vs, ts, i, x) <==> ReachItem(h, vs, ts, i, x)
    ensures Reach(h', VList(vs), List(ts), x) <==> Reach(h, VList(vs), List(ts), x)
  {
    ReachList(h, vs, ts, x);
    ReachList(h', vs, ts, x);
    assert forall i :: ReachItem(h', vs, ts, i, x) <==> ReachItem(h, vs, ts, i, x);
    assert forall i | ReachItem(h, vs, ts, i, x) :: x in h;
  }

  /** A value none of whose maps changed holds the same tree. */
  lemma {:induction false} Unchanged(h: Heap, h': Heap, v: Value, t: Tree)
    requires Rep(h, v, t) && SameIn(h, h', v, t)
    ensures Rep(h', v, t) && forall x :: Reach(h', v, t, x) <==> Reach(h, v, t, x)
    decreases t, 1
  {
    forall x ensures Reach(h', v, t, x) <==> Reach(h, v, t, x) {
      SameReach(h, h', v, t, x);
    }
    match t
    case Map(m) => UnchangedMap(h, h', v.node, m);
    case List(ts) => UnchangedList(h, h', v.items, ts);
    case _ =>
  }

  lemma {:induction false} UnchangedMap(h: Heap, h': Heap, n: MapNode, m: TreeMap)
    requires RepMap(h, n, m) && SameIn(h, h', VMap(n), Map(m))
    ensures RepMap(h', n, m)
    decreases Map(m), 0
  {
    ReachMap(h, n, m, n);
    forall k | k in m
      ensures Rep(h', h'[n][k], m[k]) && forall x :: ReachKey(h', n, m, k, x) <==> ReachKey(h, n, m, k, x)
    {
      SameInKey(h, h', n, m, k);
      Unchanged(h, h', h[n][k], m[k]);
    }
    assert forall k, x :: ReachKey(h', n, m, k, x) <==> ReachKey(h, n, m, k, x);
    assert forall k, x | ReachKey(h, n, m, k, x) :: x in h;
  }

  lemma {:induction false} UnchangedList(h: Heap, h': Heap, vs: seq<Value>, ts: seq<Tree>)
    requires RepList(h, vs, ts) && SameIn(h, h', VList(vs), List(ts))
    ensures RepList(h', vs, ts)
    decreases List(ts), 0
  {
    forall i | 0 <= i < |ts|
      ensures Rep(h', vs[i], ts[i]) && forall x :: ReachItem(h', vs, ts, i, x) <==> ReachItem(h, vs, ts, i, x)
    {
      SameInItem(h, h', vs, ts, i);
      Unchanged(h, h', vs[i], ts[i]);
    }
    assert forall i, x :: ReachItem(h', vs, ts, i, x) <==> ReachItem(h, vs, ts, i, x);
    assert forall i, x | ReachItem(h, vs, ts, i, x) :: x in h;
  }

  // ---------------------------------------------------------------- one level

  /** The value at key `k` of a map becomes `v'`, made of maps that were below that key or not in
      this map's tree at all; the maps below the other keys keep their contents. */
  ghost predicate Replaces(h: Heap, h': Heap, n: MapNode, m: TreeMap, k: string, v': Value, t': Tree) {
    && RepMap(h, n, m) && n in h' && h'[n] == h[n][k := v'] && Rep(h', v', t')
    && (forall x | x in h' && Reach(h', v', t', x) :: ReachKey(h, n, m, k, x) || !Reach(h, VMap(n), Map(m), x))
    && (forall j, x | x in h && j != k && ReachKey(h, n, m, j, x) :: x in h' && h'[x] == h[x])
  }

  lemma OtherKey(h: Heap, h': Heap, n: MapNode, m: TreeMap, k: string, v': Value, t': Tree, j: string)
    requires Replaces(h, h', n, m, k, v', t') && j in m && j != k
    ensures Rep(h', h'[n][j], m[j])
    ensures forall x :: ReachKey(h', n, m[k := t'], j, x) <==> ReachKey(h, n, m, j, x)
  {
    forall x | x in h && Reach(h, h[n][j], m[j], x) ensures x in h' && h'[x] == h[x] {
      assert ReachKey(h, n, m, j, x);
    }
    Unchanged(h, h', h[n][j], m[j]);
  }

  lemma OtherKeys(h: Heap, h': Heap, n: MapNode, m: TreeMap, k: string, v': Value, t': Tree)
    requires Replaces(h, h', n, m, k, v', t')
    ensures forall j | j in m && j != k :: Rep(h', h'[n][j], m[j])
    ensures forall j, x | j != k :: ReachKey(h', n, m[k := t'], j, x) <==> ReachKey(h, n, m, j, x)
    ensures forall x :: ReachKey(h', n, m[k := t'], k, x) <==> Reach(h', v', t', x)
  {
    forall j | j in m && j != k
      ensures Rep(h', h'[n][j], m[j]) && forall x :: ReachKey(h', n, m[k := t'], j, x) <==> ReachKey(h, n, m, j, x)
    {
      OtherKey(h, h', n, m, k, v', t', j);
    }
  }

  /** What the value at `k` is made of now is not below another key. */
  lemma ReplacedApart(h: Heap, h': Heap, n: MapNode, m: TreeMap, k: string, v': Value, t': Tree, x: MapNode)
    requires Replaces(h, h', n, m, k, v', t') && Reach(h', v', t', x)
    ensures x != n && forall j | j != k :: !ReachKey(h, n, m, j, x)
  {
    assert x in h';
    ReachMap(h, n, m, x);
    assert !ReachKey(h, n, m, k, n);
  }

  /** No two keys reach the same map afterwards, and none the map itself. */
  lemma ReplacedDisjoint(
      h: Heap, h': Heap, n: MapNode, m: TreeMap, k: string, v': Value, t': Tree, i: string, j: string, x: MapNode)
    requires Replaces(h, h', n, m, k, v', t') && ReachKey(h', n, m[k := t'], i, x)
    ensures x != n && (i != j ==> !ReachKey(h', n, m[k := t'], j, x))
  {
    OtherKeys(h, h', n, m, k, v', t');
    if i == k {
      ReplacedApart(h, h', n, m, k, v', t', x);
      assert j != k ==> !ReachKey(h, n, m, j, x);
    } else {
      assert ReachKey(h, n, m, i, x);
      assert x in h && (i != j ==> !ReachKey(h, n, m, j, x));
      if j == k && ReachKey(h', n, m[k := t'], j, x) {
        ReplacedApart(h, h', n, m, k, v', t', x);
      }
    }
  }

  lemma ReplaceKey(h: Heap, h': Heap, n: MapNode, m: TreeMap, k: string, v': Value, t': Tree)
    requires Replaces(h, h', n, m, k, v', t')
    ensures RepMap(h', n, m[k := t'])
    ensures forall x :: ReachKey(h', n, m[k := t'], k, x) <==> Reach(h', v', t', x)
    ensures forall j, x | j != k :: ReachKey(h', n, m[k := t'], j, x) <==> ReachKey(h, n, m, j, x)
  {
    var m' := m[k := t'];
    OtherKeys(h, h', n, m, k, v', t');
    forall j ensures !ReachKey(h', n, m', j, n) {
      if ReachKey(h', n, m', j, n) {
        ReplacedDisjoint(h, h', n, m, k, v', t', j, j, n);
      }
    }
    forall i, j, x | x in h' && i != j ensures !(ReachKey(h', n, m', i, x) && ReachKey(h', n, m', j, x)) {
      if ReachKey(h', n, m', i, x) {
        ReplacedDisjoint(h, h', n, m, k, v', t', i, j, x);
      }
    }
    RepMapIs(h', n, m');
  }

  lemma RepMapIs(h: Heap, n: MapNode, m: TreeMap)
    requires n in h && h[n].Keys == m.Keys && forall k | k in m :: Rep(h, h[n][k], m[k])
    requires forall k :: !ReachKey(h, n, m, k, n)
    requires forall j, k, x | x in h && j != k :: !(ReachKey(h, n, m, j, x) && ReachKey(h, n, m, k, x))
    ensures RepMap(h, n, m)
  {
  }

  // ---------------------------------------------------------------- updates in place

  /** Between two moments the value went from one tree to another, in its own maps and new ones. */
  ghost predicate Evolves(h: Heap, h': Heap, v: Value, t: Tree, t': Tree) {
    && Rep(h, v, t) && Rep(h', v, t') && h.Keys <= h'.Keys
    && (forall x | x in h && !Reach(h, v, t, x) :: h'[x] == h[x])
    && (forall x | x in h' && Reach(h', v, t', x) :: Reach(h, v, t, x) || x !in h)
  }

  lemma EvolvesThen(h: Heap, h1: Heap, h2: Heap, v: Value, t: Tree, t1: Tree, t2: Tree)
    requires Evolves(h, h1, v, t, t1) && Evolves(h1, h2, v, t1, t2)
    ensures Evolves(h, h2, v, t, t2)
  {
    forall x | x in h && !Reach(h, v, t, x) ensures h2[x] == h[x] {
      assert !Reach(h1, v, t1, x);
    }
  }

  /** What a map's tree reaches after one key changed. */
  lemma ReachAfter(h: Heap, h': Heap, n: MapNode, m: TreeMap, k: string, v': Value, t': Tree, x: MapNode)
    requires Replaces(h, h', n, m, k, v', t') && Reach(h', VMap(n), Map(m[k := t']), x)
    ensures x == n || Reach(h', v', t', x) || Reach(h, VMap(n), Map(m), x)
  {
    var m' := m[k := t'];
    ReplaceKey(h, h', n, m, k, v', t');
    ReachMap(h', n, m', x);
    if x != n {
      var j :| ReachKey(h', n, m', j, x);
      if j != k {
        assert ReachKey(h, n, m, j, x);
        ReachMap(h, n, m, x);
      }
    }
  }

  lemma EvolvesKey(h: Heap, h': Heap, n: MapNode, m: TreeMap, k: string, v': Value, t': Tree)
    requires Replaces(h, h', n, m, k, v', t') && h.Keys <= h'.Keys
    requires forall x | x in h' && Reach(h', v', t', x) :: ReachKey(h, n, m, k, x) || x !in h
    requires forall x | x in h && x != n && !ReachKey(h, n, m, k, x) :: h'[x] == h[x]
    ensures Evolves(h, h', VMap(n), Map(m), Map(m[k := t']))
  {
    ReplaceKey(h, h', n, m, k, v', t');
    ReachMap(h, n, m, n);
    forall x | x in h' && Reach(h', VMap(n), Map(m[k := t']), x) ensures Reach(h, VMap(n), Map(m), x) || x !in h {
      ReachAfter(h, h', n, m, k, v', t', x);
      ReachMap(h, n, m, x);
    }
    forall x | x in h && !Reach(h, VMap(n), Map(m), x) ensures h'[x] == h[x] {
      ReachMap(h, n, m, x);
    }
  }

  /** What happens to the value at a key happens to the map. */
  lemma UpKey(h: Heap, h': Heap, n: MapNode, m: TreeMap, k: string, t': Tree)
    requires RepMap(h, n, m) && k in m && Evolves(h, h', h[n][k], m[k], t')
    ensures Evolves(h, h', VMap(n), Map(m), Map(m[k := t'])) && h'[n] == h[n]
  {
    assert !ReachKey(h, n, m, k, n);
    assert h[n][k := h[n][k]] == h[n];
    forall x | x in h' && Reach(h', h[n][k], t', x)
      ensures ReachKey(h, n, m, k, x) || !Reach(h, VMap(n), Map(m), x)
    {
    }
    forall j, x | x in h && j != k && ReachKey(h, n, m, j, x) ensures h'[x] == h[x] {
      assert !ReachKey(h, n, m, k, x);
    }
    EvolvesKey(h, h', n, m, k, h[n][k], t');
  }

  lemma UpItemRep(h: Heap, h': Heap, vs: seq<Value>, ts: seq<Tree>, i: nat, t': Tree)
    requires RepList(h, vs, ts) && i < |ts| && Evolves(h, h', vs[i], ts[i], t')
    ensures RepList(h', vs, ts[i := t'])
    ensures forall j, x | ReachItem(h', vs, ts[i := t'], j, x) :: ReachItem(h, vs, ts, j, x) || (j == i && x !in h)
  {
    var ts' := ts[i := t'];
    forall j | 0 <= j < |ts|
      ensures Rep(h', vs[j], ts'[j])
      ensures forall x | ReachItem(h', vs, ts', j, x) :: ReachItem(h, vs, ts, j, x) || (j == i && x !in h)
    {
      if j != i {
        OtherItem(h, h', vs, ts, i, t', j);
      } else {
        assert forall x | Reach(h', vs[i], t', x) :: x in h';
      }
    }
    forall a, b, x | x in h' && a != b ensures !(ReachItem(h', vs, ts', a, x) && ReachItem(h', vs, ts', b, x)) {
      assert ReachItem(h, vs, ts, a, x) ==> x in h;
      assert ReachItem(h, vs, ts, b, x) ==> x in h;
    }
  }

  /** What happens to an item happens to the list. */
  lemma UpItem(h: Heap, h': Heap, vs: seq<Value>, ts: seq<Tree>, i: nat, t': Tree)
    requires RepList(h, vs, ts) && i < |ts| && Evolves(h, h', vs[i], ts[i], t')
    ensures Evolves(h, h', VList(vs), List(ts), List(ts[i := t']))
  {
    var ts' := ts[i := t'];
    UpItemRep(h, h', vs, ts, i, t');
    forall x | x in h' && Reach(h', VList(vs), List(ts'), x) ensures Reach(h, VList(vs), List(ts), x) || x !in h {
      ReachList(h', vs, ts', x);
      ReachList(h, vs, ts, x);
      var j :| ReachItem(h', vs, ts', j, x);
      assert ReachItem(h, vs, ts, j, x) || x !in h;
    }
    forall x | x in h && !Reach(h, VList(vs), List(ts), x) ensures h'[x] == h[x] {
      ReachList(h, vs, ts, x);
      assert !ReachItem(h, vs, ts, i, x);
    }
    assert Rep(h, VList(vs), List(ts)) && Rep(h', VList(vs), List(ts'));
  }

  lemma OtherItem(h: Heap, h': Heap, vs: seq<Value>, ts: seq<Tree>, i: nat, t': Tree, j: nat)
    requires RepList(h, vs, ts) && i < |ts| && Evolves(h, h', vs[i], ts[i], t') && j < |ts| && j != i
    ensures Rep(h', vs[j], ts[j]) && forall x :: ReachItem(h', vs, ts[i := t'], j, x) <==> ReachItem(h, vs, ts, j, x)
  {
    forall x | x in h && Reach(h, vs[j], ts[j], x) ensures h'[x] == h[x] {
      assert ReachItem(h, vs, ts, j, x);
      assert !ReachItem(h, vs, ts, i, x);
    }
    Unchanged(h, h', vs[j], ts[j]);
  }

  /** Only `n` changed, at one key. */
  ghost predicate Assigned(h: Heap, h': Heap, n: MapNode, k: string, v': Value) {
    && n in h && n in h' && h.Keys <= h'.Keys && h'[n] == h[n][k := v']
    && forall x | x in h && x != n :: h'[x] == h[x]
  }

  lemma SetKey(h: Heap, h': Heap, n: MapNode, m: TreeMap, k: string, v': Value, t': Tree)
    requires RepMap(h, n, m) && Assigned(h, h', n, k, v') && Rep(h', v', t')
    requires forall x | x in h' && Reach(h', v', t', x) :: ReachKey(h, n, m, k, x) || x !in h
    ensures Evolves(h, h', VMap(n), Map(m), Map(m[k := t']))
  {
    forall j, x | x in h && j != k && ReachKey(h, n, m, j, x) ensures h'[x] == h[x] {
      assert !ReachKey(h, n, m, j, n);
    }
    EvolvesKey(h, h', n, m, k, v', t');
  }

  lemma RemoveKey(h: Heap, h': Heap, n: MapNode, m: TreeMap, k: string)
    requires RepMap(h, n, m) && n in h' && h'.Keys == h.Keys && h'[n] == h[n] - {k}
    requires forall x | x in h && x != n :: h'[x] == h[x]
    ensures Evolves(h, h', VMap(n), Map(m), Map(m - {k}))
  {
    var m' := m - {k};
    forall j | j in m'
      ensures Rep(h', h'[n][j], m'[j]) && forall x :: ReachKey(h', n, m', j, x) <==> ReachKey(h, n, m, j, x)
    {
      forall x | x in h && Reach(h, h[n][j], m[j], x) ensures h'[x] == h[x] {
        assert ReachKey(h, n, m, j, x);
        assert !ReachKey(h, n, m, j, n);
      }
      Unchanged(h, h', h[n][j], m[j]);
    }
    assert forall j, x | ReachKey(h', n, m', j, x) :: ReachKey(h, n, m, j, x);
    ReachMap(h, n, m, n);
    forall x | x in h' && Reach(h', VMap(n), Map(m'), x) ensures Reach(h, VMap(n), Map(m), x) || x !in h {
      ReachMap(h', n, m', x);
      ReachMap(h, n, m, x);
    }
  }

  // ---------------------------------------------------------------- places in a tree

  predicate HasPath(m: TreeMap, p: seq<string>)
    decreases |p|
  {
    p == [] || (p[0] in m && m[p[0]].Map? && HasPath(m[p[0]].m, p[1..]))
  }

  /** The map at `p`, empty when there is none. */
  function Sub(m: TreeMap, p: seq<string>): TreeMap
    decreases |p|
  {
    if p == [] then m else Sub(SubMap(m, p[0]), p[1..])
  }

  function PutAt(m: TreeMap, p: seq<string>, s: TreeMap): TreeMap
    decreases |p|
  {
    if p == [] then s else m[p[0] := Map(PutAt(SubMap(m, p[0]), p[1..], s))]
  }

  /** The tree with maps made along `p` where there are none. */
  function MkPath(m: TreeMap, p: seq<string>): TreeMap {
    PutAt(m, p, Sub(m, p))
  }

  lemma {:induction false} SubOfPut(m: TreeMap, p: seq<string>, s: TreeMap)
    ensures HasPath(PutAt(m, p, s), p) && Sub(PutAt(m, p, s), p) == s
    decreases |p|
  {
    if p != [] {
      SubOfPut(SubMap(m, p[0]), p[1..], s);
    }
  }

  lemma {:induction false} PutTwice(m: TreeMap, p: seq<string>, a: TreeMap, b: TreeMap)
    ensures PutAt(PutAt(m, p, a), p, b) == PutAt(m, p, b)
    decreases |p|
  {
    if p != [] {
      PutTwice(SubMap(m, p[0]), p[1..], a, b);
    }
  }

  lemma {:induction false} PutSnoc(m: TreeMap, p: seq<string>, k: string, s: TreeMap)
    ensures PutAt(m, p + [k], s) == PutAt(m, p, Sub(m, p)[k := Map(s)])
    ensures Sub(m, p + [k]) == SubMap(Sub(m, p), k)
    decreases |p|
  {
    var pk := p + [k];
    if p == [] {
      assert pk[1..] == [];
    } else {
      assert pk[0] == p[0] && pk[1..] == p[1..] + [k];
      PutSnoc(SubMap(m, p[0]), p[1..], k, s);
    }
  }

  lemma {:induction false} PutSame(m: TreeMap, p: seq<string>)
    requires HasPath(m, p)
    ensures PutAt(m, p, Sub(m, p)) == m
    decreases |p|
  {
    if p != [] {
      PutSame(m[p[0]].m, p[1..]);
    }
  }

  /** One more level: the map at `k` is kept, or an empty one made. */
  lemma MkPathSnoc(m: TreeMap, p: seq<string>, k: string)
    ensures var t := MkPath(m, p);
            var s := Sub(t, p);
            && HasPath(t, p)
            && MkPath(m, p + [k]) == PutAt(t, p, s[k := Map(SubMap(s, k))])
            && (k in s && s[k].Map? ==> MkPath(m, p + [k]) == t)
  {
    var t := MkPath(m, p);
    SubOfPut(m, p, Sub(m, p));
    var s := Sub(t, p);
    PutSnoc(m, p, k, SubMap(s, k));
    PutTwice(m, p, s, s[k := Map(SubMap(s, k))]);
    if k in s && s[k].Map? {
      assert s[k := Map(SubMap(s, k))] == s;
      PutSame(t, p);
    }
  }

  /** SetNested makes the path and stores the leaf in its last map. */
  lemma {:induction false} SetNestedIs(e: Fmt, m: TreeMap, p: seq<string>, leaf: string, val: Tree)
    ensures SetNested(e, m, p + [leaf], val) == PutAt(MkPath(m, p), p, StoreLeaf(e, Sub(MkPath(m, p), p), leaf, val))
  {
    SubOfPut(m, p, Sub(m, p));
    PutTwice(m, p, Sub(m, p), StoreLeaf(e, Sub(m, p), leaf, val));
    SetNestedPuts(e, m, p, leaf, val);
  }

  lemma {:induction false} SetNestedPuts(e: Fmt, m: TreeMap, p: seq<string>, leaf: string, val: Tree)
    ensures SetNested(e, m, p + [leaf], val) == PutAt(m, p, StoreLeaf(e, Sub(m, p), leaf, val))
    decreases |p|
  {
    var path := p + [leaf];
    if p != [] {
      assert path[0] == p[0] && path[1..] == p[1..] + [leaf];
      SetNestedPuts(e, SubMap(m, p[0]), p[1..], leaf, val);
    }
  }

  lemma {:induction false} SetKeyedIs(e: Fmt, m: TreeMap, p: seq<string>, k: string, keyField: string, key: string,
                                      rest: seq<string>, val: Tree)
    requires rest != []
    ensures SetKeyedList(e, m, p + [k], keyField, key, rest, val)
         == PutAt(m, p, Sub(m, p)[k := List(SetKeyedItems(e, SubList(Sub(m, p), k), keyField, key, rest, val))])
    decreases |p|
  {
    var path := p + [k];
    if p != [] {
      assert path[0] == p[0] && path[1..] == p[1..] + [k];
      SetKeyedIs(e, SubMap(m, p[0]), p[1..], k, keyField, key, rest, val);
    }
  }

  /** A delete that runs off the maps changes nothing. */
  lemma {:induction false} DeleteStops(m: TreeMap, p: seq<string>, k: string, rest: seq<string>)
    requires HasPath(m, p) && rest != []
    requires var s := Sub(m, p); k !in s || !s[k].Map?
    ensures DeleteNested(m, p + [k] + rest) == m
    decreases |p|
  {
    var path := p + [k] + rest;
    if p != [] {
      assert path[0] == p[0] && path[1..] == p[1..] + [k] + rest;
      DeleteStops(m[p[0]].m, p[1..], k, rest);
      assert m[p[0] := Map(m[p[0]].m)] == m;
    }
  }

  lemma {:induction false} DeleteIs(m: TreeMap, p: seq<string>, k: string)
    requires HasPath(m, p)
    ensures DeleteNested(m, p + [k]) == PutAt(m, p, Sub(m, p) - {k})
    decreases |p|
  {
    var path := p + [k];
    if p != [] {
      assert path[0] == p[0] && path[1..] == p[1..] + [k];
      DeleteIs(m[p[0]].m, p[1..], k);
    }
  }

  lemma {:induction false} HasPathSnoc(m: TreeMap, p: seq<string>, k: string)
    requires HasPath(m, p)
    ensures HasPath(m, p + [k]) <==> k in Sub(m, p) && Sub(m, p)[k].Map?
    decreases |p|
  {
    var pk := p + [k];
    if p == [] {
      assert pk[1..] == [];
    } else {
      assert pk[0] == p[0] && pk[1..] == p[1..] + [k];
      HasPathSnoc(m[p[0]].m, p[1..], k);
    }
  }

  // ---------------------------------------------------------------- updates at a place

  /** `cur` is the map that the keys `p` lead to from `n`. */
  ghost predicate At(h: Heap, n: MapNode, p: seq<string>, cur: MapNode)
    decreases |p|
  {
    if p == [] then n == cur
    else n in h && p[0] in h[n] && h[n][p[0]].VMap? && At(h, h[n][p[0]].node, p[1..], cur)
  }

  /** The map at `p` holds the subtree at `p`. */
  lemma {:induction false} RepAt(h: Heap, n: MapNode, m: TreeMap, p: seq<string>, cur: MapNode)
    requires RepMap(h, n, m) && HasPath(m, p) && At(h, n, p, cur)
    ensures RepMap(h, cur, Sub(m, p))
    decreases |p|
  {
    if p != [] {
      assert Rep(h, h[n][p[0]], m[p[0]]);
      RepAt(h, h[n][p[0]].node, m[p[0]].m, p[1..], cur);
    }
  }

  lemma {:induction false} AtSnoc(h: Heap, n: MapNode, p: seq<string>, cur: MapNode, k: string)
    requires At(h, n, p, cur) && cur in h && k in h[cur] && h[cur][k].VMap?
    ensures At(h, n, p + [k], h[cur][k].node)
    decreases |p|
  {
    var pk := p + [k];
    if p == [] {
      assert pk[1..] == [];
    } else {
      assert pk[0] == p[0] && pk[1..] == p[1..] + [k];
      AtSnoc(h, h[n][p[0]].node, p[1..], cur, k);
    }
  }

  /** What happens to the map at `p` happens to the tree at `p`, and nowhere else. */
  lemma {:induction false} UpAlong(h: Heap, h': Heap, n: MapNode, m: TreeMap, p: seq<string>, cur: MapNode, s: TreeMap)
    requires RepMap(h, n, m) && HasPath(m, p) && At(h, n, p, cur)
    requires Evolves(h, h', VMap(cur), Map(Sub(m, p)), Map(s))
    ensures Evolves(h, h', VMap(n), Map(m), Map(PutAt(m, p, s))) && At(h', n, p, cur)
    decreases |p|
  {
    if p != [] {
      var k := p[0];
      assert Rep(h, h[n][k], m[k]);
      UpAlong(h, h', h[n][k].node, m[k].m, p[1..], cur, s);
      UpKey(h, h', n, m, k, Map(PutAt(m[k].m, p[1..], s)));
    }
  }

  // ---------------------------------------------------------------- values

  /** A tree without maps. */
  predicate MapFree(t: Tree) {
    match t
    case Map(_) => false
    case List(ts) => forall i | 0 <= i < |ts| :: MapFree(ts[i])
    case _ => true
  }

  function ToValue(t: Tree): Value
    requires MapFree(t)
  {
    match t
    case List(ts) => VList(seq(|ts|, i requires 0 <= i < |ts| => ToValue(ts[i])))
    case _ => VTree(t)
  }

  lemma {:induction false} PlainRep(h: Heap, t: Tree)
    requires MapFree(t)
    ensures Rep(h, ToValue(t), t) && forall x :: !Reach(h, ToValue(t), t, x)
  {
    if t.List? {
      var vs, ts := ToValue(t).items, t.items;
      forall i | 0 <= i < |ts| ensures Rep(h, vs[i], ts[i]) && forall x :: !ReachItem(h, vs, ts, i, x) {
        PlainRep(h, ts[i]);
      }
      forall x ensures !Reach(h, ToValue(t), t, x) {
        ReachList(h, vs, ts, x);
      }
    }
  }

  /** An item that shares no map with a list can join it. */
  lemma RepSnoc(h: Heap, vs: seq<Value>, ts: seq<Tree>, v: Value, t: Tree)
    requires RepList(h, vs, ts) && Rep(h, v, t)
    requires forall x | x in h && Reach(h, v, t, x) :: !Reach(h, VList(vs), List(ts), x)
    ensures RepList(h, vs + [v], ts + [t])
    ensures forall x :: Reach(h, VList(vs + [v]), List(ts + [t]), x) <==>
              Reach(h, VList(vs), List(ts), x) || Reach(h, v, t, x)
  {
    var vs', ts' := vs + [v], ts + [t];
    forall i, x ensures ReachItem(h, vs', ts', i, x) <==> if i == |ts| then Reach(h, v, t, x) else ReachItem(h, vs, ts, i, x) {
    }
    forall x ensures Reach(h, VList(vs'), List(ts'), x) <==> Reach(h, VList(vs), List(ts), x) || Reach(h, v, t, x) {
      ReachList(h, vs', ts', x);
      ReachList(h, vs, ts, x);
      assert Reach(h, v, t, x) ==> x in h && ReachItem(h, vs', ts', |ts|, x);
      assert forall i | ReachItem(h, vs, ts, i, x) :: ReachItem(h, vs', ts', i, x);
    }
    forall i, j, x | x in h && i != j ensures !(ReachItem(h, vs', ts', i, x) && ReachItem(h, vs', ts', j, x)) {
      ReachList(h, vs, ts, x);
    }
  }

  /** The tree a value stands for, read from the maps. */
  method ToTree(v: Value, ghost nodes: set<MapNode>, ghost t: Tree) returns (r: Tree)
    requires Rep(Snap(nodes), v, t)
    ensures r == t
    decreases t
  {
    match v
    case VTree(u) => r := u;
    case VList(items) =>
      var rs: seq<Tree> := [];
      for i := 0 to |items|
        invariant rs == t.items[..i]
      {
        assert Rep(Snap(nodes), items[i], t.items[i]);
        var u := ToTree(items[i], nodes, t.items[i]);
        rs := rs + [u];
      }
      r := List(rs);
    case VMap(n) =>
      var m: TreeMap := map[];
      var todo := n.entries.Keys;
      while todo != {}
        invariant todo <= t.m.Keys && m.Keys == t.m.Keys - todo
        invariant forall k | k in m :: m[k] == t.m[k]
        decreases |todo|
      {
        var k :| k in todo;
        assert Rep(Snap(nodes), n.entries[k], t.m[k]);
        var u := ToTree(n.entries[k], nodes, t.m[k]);
        m := m[k := u];
        todo := todo - {k};
      }
      r := Map(m);
  }

  /** fmt.Sprint of a value. */
  method SprintValue(e: Fmt, v: Value, ghost nodes: set<MapNode>, ghost t: Tree) returns (s: string)
    requires Rep(Snap(nodes), v, t)
    ensures s == Sprint(e, t)
  {
    var u := ToTree(v, nodes, t);
    s := Sprint(e, u);
  }

  // ---------------------------------------------------------------- setNested

  /** The descent of setNested and setKeyedList: maps are made along the way where there are none. */
  method Descend(root: MapNode, path: seq<string>, ghost nodes: set<MapNode>, ghost m: TreeMap)
    returns (cur: MapNode, ghost nodes': set<MapNode>)
    requires RepMap(Snap(nodes), root, m)
    modifies nodes
    ensures nodes <= nodes' && fresh(nodes' - nodes)
    ensures Evolves(old(Snap(nodes)), Snap(nodes'), VMap(root), Map(m), Map(MkPath(m, path)))
    ensures At(Snap(nodes'), root, path, cur)
  {
    ghost var h := Snap(nodes);
    cur := root;
    nodes' := nodes;
    assert path[..0] == [] && MkPath(m, []) == m;
    for i := 0 to |path|
      invariant nodes <= nodes' && fresh(nodes' - nodes)
      invariant Evolves(h, Snap(nodes'), VMap(root), Map(m), Map(MkPath(m, path[..i])))
      invariant At(Snap(nodes'), root, path[..i], cur)
    {
      assert path[..i + 1] == path[..i] + [path[i]];
      cur, nodes' := Enter(root, path[..i], path[i], cur, nodes', m, h);
    }
    assert path[..|path|] == path;
  }

  method Enter(root: MapNode, ghost p: seq<string>, k: string, at: MapNode, ghost nodes: set<MapNode>, ghost m: TreeMap, ghost h0: Heap)
    returns (next: MapNode, ghost nodes': set<MapNode>)
    requires Evolves(h0, Snap(nodes), VMap(root), Map(m), Map(MkPath(m, p))) && At(Snap(nodes), root, p, at)
    modifies nodes
    ensures nodes <= nodes' && fresh(nodes' - nodes)
    ensures Evolves(h0, Snap(nodes'), VMap(root), Map(m), Map(MkPath(m, p + [k])))
    ensures At(Snap(nodes'), root, p + [k], next)
  {
    ghost var h := Snap(nodes);
    ghost var t := MkPath(m, p);
    MkPathSnoc(m, p, k);
    RepAt(h, root, t, p, at);
    ghost var s := Sub(t, p);
    assert k in s ==> Rep(h, h[at][k], s[k]);
    if k in at.entries && at.entries[k].VMap? {
      next := at.entries[k].node;
      nodes' := nodes;
      AtSnoc(h, root, p, at, k);
    } else {
      next := new MapNode();
      nodes' := nodes + {next};
      at.entries := at.entries[k := VMap(next)];
      NewMap(h, Snap(nodes'), root, t, p, at, k, next);
      EvolvesThen(h0, h, Snap(nodes'), VMap(root), Map(m), Map(t), Map(MkPath(m, p + [k])));
    }
  }

  /** An empty map stored at a key that held none. */
  lemma NewMap(h: Heap, h': Heap, root: MapNode, t: TreeMap, p: seq<string>, at: MapNode, k: string, next: MapNode)
    requires RepMap(h, root, t) && HasPath(t, p) && At(h, root, p, at) && next !in h
    requires RepMap(h, at, Sub(t, p)) && Assigned(h, h', at, k, VMap(next)) && next in h' && h'[next] == map[]
    ensures Evolves(h, h', VMap(root), Map(t), Map(PutAt(t, p, Sub(t, p)[k := Map(map[])])))
    ensures At(h', root, p + [k], next)
  {
    forall x | x in h' && Reach(h', VMap(next), Map(map[]), x) ensures x == next {
      ReachMap(h', next, map[], x);
    }
    assert Rep(h', VMap(next), Map(map[])) by {
      assert forall j, x :: !ReachKey(h', next, map[], j, x);
    }
    SetKey(h, h', at, Sub(t, p), k, VMap(next), Map(map[]));
    UpAlong(h, h', root, t, p, at, Sub(t, p)[k := Map(map[])]);
    AtSnoc(h', root, p, at, k);
  }

  /** The items a map holds at a key, none when it holds no list there. */
  method ListAt(cur: MapNode, k: string, ghost nodes: set<MapNode>, ghost s: TreeMap) returns (items: seq<Value>)
    requires RepMap(Snap(nodes), cur, s)
    ensures RepList(Snap(nodes), items, SubList(s, k))
    ensures forall x | x in Snap(nodes) && Reach(Snap(nodes), VList(items), List(SubList(s, k)), x) :: ReachKey(Snap(nodes), cur, s, k, x)
    ensures k in s && s[k].List? ==> cur.entries[k] == VList(items)
  {
    assert k in s ==> Rep(Snap(nodes), cur.entries[k], s[k]);
    if k in cur.entries && cur.entries[k].VList? {
      return cur.entries[k].items;
    }
    items := [];
    forall x | x in Snap(nodes) ensures !Reach(Snap(nodes), VList([]), List([]), x) {
      ReachList(Snap(nodes), [], [], x);
    }
  }

  /** What the `roles` leaf comes to hold: no map is taken that was not in the list before. */
  method MergeRoles(e: Fmt, items: seq<Value>, val: Tree, ghost nodes: set<MapNode>, ghost ts: seq<Tree>) returns (v: Value)
    requires RepList(Snap(nodes), items, ts) && MapFree(val)
    ensures var t := StoreRoles(e, ts, val);
            && Rep(Snap(nodes), v, t)
            && forall x | x in Snap(nodes) && Reach(Snap(nodes), v, t, x) :: Reach(Snap(nodes), VList(items), List(ts), x)
  {
    PlainRep(Snap(nodes), val);
    if val.List? {
      return ToValue(val);
    }
    var s := Sprint(e, val);
    for i := 0 to |items|
      invariant forall j | 0 <= j < i :: Sprint(e, ts[j]) != s
    {
      assert Rep(Snap(nodes), items[i], ts[i]);
      var text := SprintValue(e, items[i], nodes, ts[i]);
      if text == s {
        return VList(items);
      }
    }
    PlainRep(Snap(nodes), Leaf(Str(s)));
    RepSnoc(Snap(nodes), items, ts, VTree(Leaf(Str(s))), Leaf(Str(s)));
    return VList(items + [VTree(Leaf(Str(s)))]);
  }

  /** An assignment to the map at `p`: the tree changes there and nowhere else. The value stored is
      made of maps that were below that key, and of new ones. */
  method Assign(
      cur: MapNode, k: string, v: Value, ghost t': Tree, ghost nodes: set<MapNode>, ghost mine: set<MapNode>,
      ghost root: MapNode, ghost t: TreeMap, ghost p: seq<string>)
    requires nodes !! mine && HasPath(t, p) && RepMap(Snap(nodes), root, t) && At(Snap(nodes), root, p, cur)
    requires cur in nodes && Rep(Snap(nodes + mine), v, t')
    requires forall x | x in nodes + mine && Reach(Snap(nodes + mine), v, t', x) ::
               x in mine || ReachKey(Snap(nodes), cur, Sub(t, p), k, x)
    modifies cur
    ensures Evolves(old(Snap(nodes)), Snap(nodes + mine), VMap(root), Map(t), Map(PutAt(t, p, Sub(t, p)[k := t'])))
    ensures At(Snap(nodes + mine), root, p, cur)
  {
    ghost var h := Snap(nodes);
    ghost var hm := Snap(nodes + mine);
    RepAt(h, root, t, p, cur);
    cur.entries := cur.entries[k := v];
    ghost var h' := Snap(nodes + mine);
    assert forall x | x in hm && x != cur :: h'[x] == hm[x];
    Stored(h, hm, h', cur, Sub(t, p), k, v, t');
    UpAlong(h, h', root, t, p, cur, Sub(t, p)[k := t']);
  }

  lemma Stored(h: Heap, hm: Heap, h': Heap, cur: MapNode, s: TreeMap, k: string, v: Value, t': Tree)
    requires RepMap(h, cur, s) && Assigned(h, h', cur, k, v) && Rep(hm, v, t')
    requires forall x | x in hm && Reach(hm, v, t', x) :: x !in h || ReachKey(h, cur, s, k, x)
    requires forall x | x in hm && x != cur :: x in h' && h'[x] == hm[x]
    ensures Evolves(h, h', VMap(cur), Map(s), Map(s[k := t']))
  {
    assert !ReachKey(h, cur, s, k, cur);
    Unchanged(hm, h', v, t');
    forall x | x in h' && Reach(h', v, t', x) ensures ReachKey(h, cur, s, k, x) || x !in h {
      assert Reach(hm, v, t', x);
    }
    SetKey(h, h', cur, s, k, v, t');
  }

  /** setNested. */
  method SetNestedInPlace(e: Fmt, root: MapNode, path: seq<string>, val: Tree, ghost nodes: set<MapNode>, ghost m: TreeMap)
    returns (ghost nodes': set<MapNode>)
    requires path != [] && MapFree(val) && RepMap(Snap(nodes), root, m)
    modifies nodes
    ensures nodes <= nodes' && fresh(nodes' - nodes)
    ensures Evolves(old(Snap(nodes)), Snap(nodes'), VMap(root), Map(m), Map(SetNested(e, m, path, val)))
  {
    ghost var h := Snap(nodes);
    var n := |path| - 1;
    ghost var p := path[..n];
    var cur;
    cur, nodes' := Descend(root, path[..n], nodes, m);
    ghost var h1 := Snap(nodes');
    StoreLeafInPlace(e, cur, path[n], val, nodes', root, m, p);
    assert path == p + [path[n]];
    EvolvesThen(h, h1, Snap(nodes'), VMap(root), Map(m), Map(MkPath(m, p)), Map(SetNested(e, m, path, val)));
  }

  /** The leaf of setNested, with its append semantics for roles. */
  method StoreLeafInPlace(
      e: Fmt, cur: MapNode, leaf: string, val: Tree, ghost nodes: set<MapNode>, ghost root: MapNode, ghost m: TreeMap, ghost p: seq<string>)
    requires MapFree(val) && RepMap(Snap(nodes), root, MkPath(m, p)) && At(Snap(nodes), root, p, cur)
    modifies nodes
    ensures Evolves(old(Snap(nodes)), Snap(nodes), VMap(root), Map(MkPath(m, p)), Map(SetNested(e, m, p + [leaf], val)))
  {
    ghost var t := MkPath(m, p);
    SubOfPut(m, p, Sub(m, p));
    RepAt(Snap(nodes), root, t, p, cur);
    SetNestedIs(e, m, p, leaf, val);
    PlainRep(Snap(nodes), val);
    assert nodes + {} == nodes;
    if leaf == "roles" {
      var items := ListAt(cur, leaf, nodes, Sub(t, p));
      var v := MergeRoles(e, items, val, nodes, SubList(Sub(t, p), leaf));
      Assign(cur, leaf, v, StoreRoles(e, SubList(Sub(t, p), leaf), val), nodes, {}, root, t, p);
    } else {
      Assign(cur, leaf, ToValue(val), val, nodes, {}, root, t, p);
    }
  }

  // ---------------------------------------------------------------- keyed lists

  /** Whether an item is the map whose key field reads as `key`, without regard to case. */
  method Matches(e: Fmt, item: Value, keyField: string, key: string, ghost nodes: set<MapNode>, ghost t: Tree) returns (b: bool)
    requires Rep(Snap(nodes), item, t)
    ensures b == IsEntry(e, t, keyField, key)
  {
    if !item.VMap? {
      return false;
    }
    var text := Sprint(e, Nil);
    if keyField in item.node.entries {
      assert Rep(Snap(nodes), item.node.entries[keyField], t.m[keyField]);
      text := SprintValue(e, item.node.entries[keyField], nodes, t.m[keyField]);
    }
    return EqualFold(text, key);
  }

  /** The search loop of setKeyedList and deleteKeyed. */
  method FindItem(e: Fmt, items: seq<Value>, keyField: string, key: string, ghost nodes: set<MapNode>, ghost ts: seq<Tree>)
    returns (i: nat)
    requires RepList(Snap(nodes), items, ts)
    ensures i == FindEntry(e, ts, keyField, key)
  {
    i := 0;
    while i < |items|
      invariant i <= |items|
      invariant forall j | 0 <= j < i :: !IsEntry(e, ts[j], keyField, key)
    {
      assert Rep(Snap(nodes), items[i], ts[i]);
      var found := Matches(e, items[i], keyField, key, nodes, ts[i]);
      if found {
        break;
      }
      i := i + 1;
    }
  }

  /** An entry of the list at key `k` of the map at `p` changed in place: the list is the same list
      of the same maps, and the tree changes at that entry and nowhere else. */
  lemma UpEntry(
      h: Heap, h': Heap, root: MapNode, t: TreeMap, p: seq<string>, cur: MapNode, k: string,
      vs: seq<Value>, i: nat, entry: Tree)
    requires RepMap(h, root, t) && HasPath(t, p) && At(h, root, p, cur) && RepMap(h, cur, Sub(t, p))
    requires k in Sub(t, p) && Sub(t, p)[k].List? && h[cur][k] == VList(vs) && i < |Sub(t, p)[k].items|
    requires RepList(h, vs, Sub(t, p)[k].items) && Evolves(h, h', vs[i], Sub(t, p)[k].items[i], entry)
    ensures Evolves(h, h', VMap(root), Map(t), Map(PutAt(t, p, Sub(t, p)[k := List(Sub(t, p)[k].items[i := entry])])))
    ensures h'[cur] == h[cur]
  {
    var s := Sub(t, p);
    UpItem(h, h', vs, s[k].items, i, entry);
    UpKey(h, h', cur, s, k, List(s[k].items[i := entry]));
    UpAlong(h, h', root, t, p, cur, s[k := List(s[k].items[i := entry])]);
  }

  lemma Snoc(p: seq<string>)
    requires p != []
    ensures p == p[..|p| - 1] + [p[|p| - 1]]
  {
  }

  /** setKeyedList: the entry found is changed in place through the list's own reference to it, or a
      new entry is appended. Without a field it fails, after the maps on the way to the list have
      been made. */
  method SetKeyedInPlace(
      e: Fmt, root: MapNode, listPath: seq<string>, keyField: string, key: string, rest: seq<string>, val: Tree,
      ghost nodes: set<MapNode>, ghost m: TreeMap)
    returns (ok: bool, ghost nodes': set<MapNode>)
    requires listPath != [] && MapFree(val) && RepMap(Snap(nodes), root, m)
    modifies nodes
    ensures nodes <= nodes' && fresh(nodes' - nodes) && ok == (rest != [])
    ensures Evolves(old(Snap(nodes)), Snap(nodes'), VMap(root), Map(m),
                    Map(if ok then SetKeyedList(e, m, listPath, keyField, key, rest, val)
                        else MkPath(m, listPath[..|listPath| - 1])))
  {
    ghost var h := Snap(nodes);
    var n := |listPath| - 1;
    ghost var p := listPath[..n];
    var cur;
    cur, nodes' := Descend(root, listPath[..n], nodes, m);
    if rest == [] {
      return false, nodes';
    }
    ok := true;
    ghost var h1 := Snap(nodes');
    ghost var made := nodes';
    nodes' := SetEntry(e, cur, listPath[n], keyField, key, rest, val, nodes', root, m, p);
    Snoc(listPath);
    EvolvesThen(h, h1, Snap(nodes'), VMap(root), Map(m), Map(MkPath(m, p)),
                Map(SetKeyedList(e, m, listPath, keyField, key, rest, val)));
  }

  /** Entry `i` of the list at key `k` was changed in place: the map and the list are as they were. */
  ghost predicate EntryChanged(h: Heap, h': Heap, cur: MapNode, k: string, ts: seq<Tree>, i: nat, entry: Tree) {
    && cur in h && cur in h' && h'[cur] == h[cur] && k in h[cur] && h[cur][k].VList?
    && i < |ts| && i < |h[cur][k].items| && Evolves(h, h', h[cur][k].items[i], ts[i], entry)
  }

  method SetEntry(
      e: Fmt, cur: MapNode, k: string, keyField: string, key: string, rest: seq<string>, val: Tree,
      ghost nodes: set<MapNode>, ghost root: MapNode, ghost m: TreeMap, ghost p: seq<string>)
    returns (ghost nodes': set<MapNode>)
    requires rest != [] && MapFree(val) && RepMap(Snap(nodes), root, MkPath(m, p)) && At(Snap(nodes), root, p, cur)
    modifies nodes
    ensures nodes <= nodes' && fresh(nodes' - nodes)
    ensures Evolves(old(Snap(nodes)), Snap(nodes'), VMap(root), Map(MkPath(m, p)),
                    Map(SetKeyedList(e, m, p + [k], keyField, key, rest, val)))
    ensures var ts := SubList(Sub(MkPath(m, p), p), k);
            var i := FindEntry(e, ts, keyField, key);
            i < |ts| ==> EntryChanged(old(Snap(nodes)), Snap(nodes'), cur, k, ts, i, Map(SetNested(e, ts[i].m, rest, val)))
  {
    ghost var t := MkPath(m, p);
    SubOfPut(m, p, Sub(m, p));
    RepAt(Snap(nodes), root, t, p, cur);
    ghost var ts := SubList(Sub(t, p), k);
    var items := ListAt(cur, k, nodes, Sub(t, p));
    var i := FindItem(e, items, keyField, key, nodes, ts);
    PutTwice(m, p, Sub(m, p), Sub(m, p)[k := List(SetKeyedItems(e, ts, keyField, key, rest, val))]);
    SetKeyedIs(e, m, p, k, keyField, key, rest, val);
    if i < |items| {
      nodes' := ChangeEntry(e, cur, k, items, i, rest, val, nodes, root, t, p);
    } else {
      nodes' := AppendEntry(e, cur, k, items, keyField, key, rest, val, nodes, root, t, p);
    }
  }

  /** The entry found is set in place; storing the same list again changes nothing. */
  method ChangeEntry(
      e: Fmt, cur: MapNode, k: string, items: seq<Value>, i: nat, rest: seq<string>, val: Tree,
      ghost nodes: set<MapNode>, ghost root: MapNode, ghost t: TreeMap, ghost p: seq<string>)
    returns (ghost nodes': set<MapNode>)
    requires rest != [] && MapFree(val) && RepMap(Snap(nodes), root, t) && HasPath(t, p) && At(Snap(nodes), root, p, cur)
    requires RepMap(Snap(nodes), cur, Sub(t, p)) && k in Sub(t, p) && Sub(t, p)[k].List?
    requires cur.entries[k] == VList(items) && i < |Sub(t, p)[k].items| && Sub(t, p)[k].items[i].Map?
    modifies nodes
    ensures nodes <= nodes' && fresh(nodes' - nodes)
    ensures var ts := Sub(t, p)[k].items;
            EntryChanged(old(Snap(nodes)), Snap(nodes'), cur, k, ts, i, Map(SetNested(e, ts[i].m, rest, val)))
    ensures var ts := Sub(t, p)[k].items;
            Evolves(old(Snap(nodes)), Snap(nodes'), VMap(root), Map(t),
                    Map(PutAt(t, p, Sub(t, p)[k := List(ts[i := Map(SetNested(e, ts[i].m, rest, val))])])))
  {
    ghost var h := Snap(nodes);
    ghost var ts := Sub(t, p)[k].items;
    assert Rep(h, h[cur][k], Sub(t, p)[k]) && Sub(t, p)[k] == List(ts);
    assert RepList(h, items, ts);
    assert Rep(h, items[i], ts[i]);
    nodes' := SetNestedInPlace(e, items[i].node, rest, val, nodes, ts[i].m);
    UpEntry(h, Snap(nodes'), root, t, p, cur, k, items, i, Map(SetNested(e, ts[i].m, rest, val)));
    assert Snap(nodes')[cur] == h[cur];
    cur.entries := cur.entries[k := VList(items)];
    assert cur.entries == h[cur];
  }

  /** A new entry, with its key and the field set, is appended to the list. */
  method AppendEntry(
      e: Fmt, cur: MapNode, k: string, items: seq<Value>, keyField: string, key: string, rest: seq<string>, val: Tree,
      ghost nodes: set<MapNode>, ghost root: MapNode, ghost t: TreeMap, ghost p: seq<string>)
    returns (ghost nodes': set<MapNode>)
    requires rest != [] && MapFree(val) && RepMap(Snap(nodes), root, t) && HasPath(t, p) && At(Snap(nodes), root, p, cur)
    requires RepMap(Snap(nodes), cur, Sub(t, p)) && RepList(Snap(nodes), items, SubList(Sub(t, p), k))
    requires forall x | x in Snap(nodes) && Reach(Snap(nodes), VList(items), List(SubList(Sub(t, p), k)), x) ::
               ReachKey(Snap(nodes), cur, Sub(t, p), k, x)
    modifies nodes
    ensures nodes <= nodes' && fresh(nodes' - nodes)
    ensures var entry := SetNested(e, map[keyField := Leaf(Str(key))], rest, val);
            Evolves(old(Snap(nodes)), Snap(nodes'), VMap(root), Map(t),
                    Map(PutAt(t, p, Sub(t, p)[k := List(SubList(Sub(t, p), k) + [Map(entry)])])))
  {
    ghost var h := Snap(nodes);
    var node, mine := NewEntry(e, keyField, key, rest, val);
    ghost var entry := SetNested(e, map[keyField := Leaf(Str(key))], rest, val);
    nodes' := nodes + mine;
    ghost var ts := SubList(Sub(t, p), k);
    assert Rep(h, VList(items), List(ts));
    AppendNew(h, Snap(mine), Snap(nodes'), items, ts, VMap(node), Map(entry));
    Assign(cur, k, VList(items + [VMap(node)]), List(ts + [Map(entry)]), nodes, mine, root, t, p);
  }

  method NewEntry(e: Fmt, keyField: string, key: string, rest: seq<string>, val: Tree)
    returns (node: MapNode, ghost mine: set<MapNode>)
    requires rest != [] && MapFree(val)
    ensures fresh(mine) && Rep(Snap(mine), VMap(node), Map(SetNested(e, map[keyField := Leaf(Str(key))], rest, val)))
  {
    node := new MapNode();
    node.entries := map[keyField := VTree(Leaf(Str(key)))];
    mine := {node};
    ghost var m: TreeMap := map[keyField := Leaf(Str(key))];
    assert forall j, x :: !ReachKey(Snap(mine), node, m, j, x);
    assert RepMap(Snap(mine), node, m);
    mine := SetNestedInPlace(e, node, rest, val, mine, m);
  }

  /** `h'` holds all that `h` does. */
  ghost predicate Within(h: Heap, h': Heap) {
    forall x | x in h :: x in h' && h'[x] == h[x]
  }

  /** A list and a new value, side by side. */
  lemma AppendNew(h: Heap, hm: Heap, h': Heap, vs: seq<Value>, ts: seq<Tree>, v: Value, t: Tree)
    requires Rep(h, VList(vs), List(ts)) && Rep(hm, v, t) && Within(h, h') && Within(hm, h')
    requires forall x | x in hm :: x !in h
    ensures Rep(h', VList(vs + [v]), List(ts + [t]))
    ensures forall x | x in h' && Reach(h', VList(vs + [v]), List(ts + [t]), x) :: x in hm || Reach(h, VList(vs), List(ts), x)
  {
    KeptIn(h, h', VList(vs), List(ts));
    KeptIn(hm, h', v, t);
    JoinApart(h', h, hm, vs, ts, v, t);
  }

  /** A larger heap holds the same values. */
  lemma KeptIn(h: Heap, h': Heap, v: Value, t: Tree)
    requires Rep(h, v, t) && Within(h, h')
    ensures Rep(h', v, t) && forall x | x in h' && Reach(h', v, t, x) :: x in h && Reach(h, v, t, x)
  {
    Unchanged(h, h', v, t);
  }

  lemma JoinApart(h: Heap, one: Heap, other: Heap, vs: seq<Value>, ts: seq<Tree>, v: Value, t: Tree)
    requires Rep(h, VList(vs), List(ts)) && Rep(h, v, t) && forall x | x in other :: x !in one
    requires forall x | x in h && Reach(h, VList(vs), List(ts), x) :: x in one
    requires forall x | x in h && Reach(h, v, t, x) :: x in other
    ensures Rep(h, VList(vs + [v]), List(ts + [t]))
    ensures forall x | x in h && Reach(h, VList(vs + [v]), List(ts + [t]), x) ::
              Reach(h, v, t, x) || Reach(h, VList(vs), List(ts), x)
  {
    RepSnoc(h, vs, ts, v, t);
  }

  // ---------------------------------------------------------------- treeSet

  /** The tree that an error leaves: unchanged, or with the maps made on the way to the list. */
  function TreeOnError(m: TreeMap, path: seq<string>): TreeMap {
    if IsBargePath(path) && !IsPopPath(path) then MkPath(m, BARGES[..1]) else m
  }

  lemma SetPop(e: Fmt, m: TreeMap, path: seq<string>, val: Tree)
    requires IsPopPath(path)
    ensures TreeSetPath(e, m, path, val) ==
            if path[2..] == [] then Err(NeedsField) else Ok(SetKeyedList(e, m, ["pops"], "id", path[1], path[2..], val))
    ensures TreeOnError(m, path) == MkPath(m, ["pops"][..0])
  {
    assert ["pops"][..0] == [];
  }

  lemma SetBarge(e: Fmt, m: TreeMap, path: seq<string>, val: Tree)
    requires IsBargePath(path) && !IsPopPath(path)
    ensures TreeSetPath(e, m, path, val) ==
            if path[3..] == [] then Err(NeedsField) else Ok(SetKeyedList(e, m, BARGES, "name", path[2], path[3..], val))
    ensures TreeOnError(m, path) == MkPath(m, BARGES[..|BARGES| - 1])
  {
  }

  /** The outcome of treeSet: the functional result, or its error and the tree it leaves behind. */
  ghost predicate Outcome(h: Heap, h': Heap, root: MapNode, m: TreeMap, left: TreeMap, r: Result, err: Option<Error>) {
    if err.Some? then r == Err(err.value) && Evolves(h, h', VMap(root), Map(m), Map(left))
    else r.Ok? && Evolves(h, h', VMap(root), Map(m), Map(r.tree))
  }

  method SetKeyedOutcome(
      e: Fmt, root: MapNode, listPath: seq<string>, keyField: string, key: string, rest: seq<string>, val: Tree,
      ghost nodes: set<MapNode>, ghost m: TreeMap, ghost r: Result)
    returns (err: Option<Error>, ghost nodes': set<MapNode>)
    requires listPath != [] && MapFree(val) && RepMap(Snap(nodes), root, m)
    modifies nodes
    ensures nodes <= nodes' && fresh(nodes' - nodes)
    requires r == if rest == [] then Err(NeedsField) else Ok(SetKeyedList(e, m, listPath, keyField, key, rest, val))
    ensures Outcome(old(Snap(nodes)), Snap(nodes'), root, m, MkPath(m, listPath[..|listPath| - 1]), r, err)
  {
    var ok;
    ok, nodes' := SetKeyedInPlace(e, root, listPath, keyField, key, rest, val, nodes, m);
    err := if ok then None else Some(NeedsField);
  }

  method SetPopInPlace(e: Fmt, root: MapNode, path: seq<string>, val: Tree, ghost nodes: set<MapNode>, ghost m: TreeMap)
    returns (err: Option<Error>, ghost nodes': set<MapNode>)
    requires IsPopPath(path) && MapFree(val) && RepMap(Snap(nodes), root, m)
    modifies nodes
    ensures nodes <= nodes' && fresh(nodes' - nodes)
    ensures Outcome(old(Snap(nodes)), Snap(nodes'), root, m, TreeOnError(m, path), TreeSetPath(e, m, path, val), err)
  {
    SetPop(e, m, path, val);
    err, nodes' := SetKeyedOutcome(e, root, ["pops"], "id", path[1], path[2..], val, nodes, m, TreeSetPath(e, m, path, val));
  }

  method SetBargeInPlace(e: Fmt, root: MapNode, path: seq<string>, val: Tree, ghost nodes: set<MapNode>, ghost m: TreeMap)
    returns (err: Option<Error>, ghost nodes': set<MapNode>)
    requires IsBargePath(path) && !IsPopPath(path) && MapFree(val) && RepMap(Snap(nodes), root, m)
    modifies nodes
    ensures nodes <= nodes' && fresh(nodes' - nodes)
    ensures Outcome(old(Snap(nodes)), Snap(nodes'), root, m, TreeOnError(m, path), TreeSetPath(e, m, path, val), err)
  {
    SetBarge(e, m, path, val);
    err, nodes' := SetKeyedOutcome(e, root, BARGES, "name", path[2], path[3..], val, nodes, m, TreeSetPath(e, m, path, val));
  }

  method SetPathInPlace(e: Fmt, root: MapNode, path: seq<string>, val: Tree, ghost nodes: set<MapNode>, ghost m: TreeMap)
    returns (err: Option<Error>, ghost nodes': set<MapNode>)
    requires path != [] && MapFree(val) && RepMap(Snap(nodes), root, m)
    modifies nodes
    ensures nodes <= nodes' && fresh(nodes' - nodes)
    ensures Outcome(old(Snap(nodes)), Snap(nodes'), root, m, TreeOnError(m, path), TreeSetPath(e, m, path, val), err)
  {
    if IsPopPath(path) {
      err, nodes' := SetPopInPlace(e, root, path, val, nodes, m);
    } else if IsBargePath(path) {
      err, nodes' := SetBargeInPlace(e, root, path, val, nodes, m);
    } else {
      nodes' := SetNestedInPlace(e, root, path, val, nodes, m);
      err := None;
    }
  }

  /** treeSet: dispatch on the normalised path. */
  method TreeSetInPlace(e: Fmt, root: MapNode, rawPath: seq<string>, val: Tree, ghost nodes: set<MapNode>, ghost m: TreeMap)
    returns (err: Option<Error>, ghost nodes': set<MapNode>)
    requires MapFree(val) && RepMap(Snap(nodes), root, m)
    modifies nodes
    ensures nodes <= nodes' && fresh(nodes' - nodes)
    ensures Outcome(old(Snap(nodes)), Snap(nodes'), root, m, TreeOnError(m, NormalizePath(rawPath)),
                    TreeSet(e, m, rawPath, val), err)
  {
    var path := NormalizePath(rawPath);
    if path == [] {
      return Some(EmptyPath), nodes;
    }
    err, nodes' := SetPathInPlace(e, root, path, val, nodes, m);
  }

  // ---------------------------------------------------------------- treeDelete

  /** The nested part of treeDelete. */
  method DeleteInPlace(root: MapNode, path: seq<string>, ghost nodes: set<MapNode>, ghost m: TreeMap)
    requires path != [] && RepMap(Snap(nodes), root, m)
    modifies nodes
    ensures Evolves(old(Snap(nodes)), Snap(nodes), VMap(root), Map(m), Map(DeleteNested(m, path)))
  {
    var n := |path| - 1;
    var cur := root;
    ghost var h := Snap(nodes);
    assert path[..0] == [];
    for i := 0 to n
      invariant Snap(nodes) == h && HasPath(m, path[..i]) && At(h, root, path[..i], cur)
    {
      ghost var p := path[..i];
      assert path[..i + 1] == p + [path[i]];
      RepAt(h, root, m, p, cur);
      assert path[i] in Sub(m, p) ==> Rep(h, h[cur][path[i]], Sub(m, p)[path[i]]);
      HasPathSnoc(m, p, path[i]);
      if path[i] !in cur.entries || !cur.entries[path[i]].VMap? {
        DeleteStops(m, p, path[i], path[i + 1..]);
        assert path == p + [path[i]] + path[i + 1..];
        return;
      }
      AtSnoc(h, root, p, cur, path[i]);
      cur := cur.entries[path[i]].node;
    }
    DeleteKey(cur, path[n], nodes, root, m, path[..n]);
    DeleteIs(m, path[..n], path[n]);
    assert path == path[..n] + [path[n]];
  }

  method DeleteKey(cur: MapNode, k: string, ghost nodes: set<MapNode>, ghost root: MapNode, ghost m: TreeMap, ghost p: seq<string>)
    requires RepMap(Snap(nodes), root, m) && HasPath(m, p) && At(Snap(nodes), root, p, cur)
    modifies nodes
    ensures Evolves(old(Snap(nodes)), Snap(nodes), VMap(root), Map(m), Map(PutAt(m, p, Sub(m, p) - {k})))
  {
    ghost var h := Snap(nodes);
    RepAt(h, root, m, p, cur);
    cur.entries := cur.entries - {k};
    RemoveKey(h, Snap(nodes), cur, Sub(m, p), k);
    UpAlong(h, Snap(nodes), root, m, p, cur, Sub(m, p) - {k});
  }

  lemma {:induction false} DropSnoc(e: Fmt, ts: seq<Tree>, t: Tree, keyField: string, key: string)
    ensures DropEntries(e, ts + [t], keyField, key)
         == DropEntries(e, ts, keyField, key) + if IsEntry(e, t, keyField, key) then [] else [t]
  {
    if ts == [] {
      assert ([] + [t])[1..] == [];
    } else {
      assert (ts + [t])[1..] == ts[1..] + [t] && (ts + [t])[0] == ts[0];
      DropSnoc(e, ts[1..], t, keyField, key);
    }
  }

  /** What has been kept of the first `i` items, each map still in at most one place. */
  ghost predicate KeptOf(h: Heap, items: seq<Value>, ts: seq<Tree>, i: nat, out: seq<Value>, kept: seq<Tree>) {
    && i <= |ts| && RepList(h, out, kept)
    && forall x | x in h && Reach(h, VList(out), List(kept), x) :: exists j :: 0 <= j < i && ReachItem(h, items, ts, j, x)
  }

  lemma KeepItem(h: Heap, items: seq<Value>, ts: seq<Tree>, i: nat, out: seq<Value>, kept: seq<Tree>)
    requires RepList(h, items, ts) && KeptOf(h, items, ts, i, out, kept) && i < |ts|
    ensures KeptOf(h, items, ts, i + 1, out + [items[i]], kept + [ts[i]])
  {
    forall x | x in h && Reach(h, items[i], ts[i], x) ensures !Reach(h, VList(out), List(kept), x) {
      assert ReachItem(h, items, ts, i, x);
    }
    RepSnoc(h, out, kept, items[i], ts[i]);
    forall x | x in h && Reach(h, VList(out + [items[i]]), List(kept + [ts[i]]), x)
      ensures exists j :: 0 <= j < i + 1 && ReachItem(h, items, ts, j, x)
    {
      if Reach(h, items[i], ts[i], x) {
        assert ReachItem(h, items, ts, i, x);
      }
    }
  }

  lemma KeepNothing(h: Heap, items: seq<Value>, ts: seq<Tree>)
    ensures KeptOf(h, items, ts, 0, [], [])
  {
    forall x | x in h ensures !Reach(h, VList([]), List([]), x) {
      ReachList(h, [], [], x);
    }
  }

  /** The loop of deleteKeyed that builds the list without the entries of a key. */
  method DropItems(e: Fmt, items: seq<Value>, keyField: string, key: string, ghost nodes: set<MapNode>, ghost ts: seq<Tree>)
    returns (out: seq<Value>)
    requires RepList(Snap(nodes), items, ts)
    ensures KeptOf(Snap(nodes), items, ts, |ts|, out, DropEntries(e, ts, keyField, key))
  {
    out := [];
    ghost var kept: seq<Tree> := [];
    KeepNothing(Snap(nodes), items, ts);
    for i := 0 to |items|
      invariant KeptOf(Snap(nodes), items, ts, i, out, kept)
      invariant kept == DropEntries(e, ts[..i], keyField, key)
    {
      assert Rep(Snap(nodes), items[i], ts[i]);
      assert ts[..i + 1] == ts[..i] + [ts[i]];
      DropSnoc(e, ts[..i], ts[i], keyField, key);
      var drop := Matches(e, items[i], keyField, key, nodes, ts[i]);
      if drop {
        SkipItem(Snap(nodes), items, ts, i, out, kept);
      } else {
        KeepItem(Snap(nodes), items, ts, i, out, kept);
        out, kept := out + [items[i]], kept + [ts[i]];
      }
    }
    assert ts[..|items|] == ts;
  }

  lemma SkipItem(h: Heap, items: seq<Value>, ts: seq<Tree>, i: nat, out: seq<Value>, kept: seq<Tree>)
    requires KeptOf(h, items, ts, i, out, kept) && i < |ts|
    ensures KeptOf(h, items, ts, i + 1, out, kept)
  {
    forall x | x in h && Reach(h, VList(out), List(kept), x)
      ensures exists j :: 0 <= j < i + 1 && ReachItem(h, items, ts, j, x)
    {
      var j :| 0 <= j < i && ReachItem(h, items, ts, j, x);
    }
  }

  /** deleteKeyed without a field: the list is replaced by one without the entries of the key. */
  method DeleteEntries(
      e: Fmt, root: MapNode, k: string, keyField: string, key: string, ghost nodes: set<MapNode>, ghost m: TreeMap)
    requires RepMap(Snap(nodes), root, m) && k in m && m[k].List?
    modifies nodes
    ensures Evolves(old(Snap(nodes)), Snap(nodes), VMap(root), Map(m),
                    Map(m[k := List(DropEntries(e, m[k].items, keyField, key))]))
  {
    var items := ListAt(root, k, nodes, m);
    ghost var ts := m[k].items;
    ghost var kept := DropEntries(e, ts, keyField, key);
    var out := DropItems(e, items, keyField, key, nodes, ts);
    assert nodes + {} == nodes;
    forall x | x in Snap(nodes) && Reach(Snap(nodes), VList(out), List(kept), x) ensures ReachKey(Snap(nodes), root, m, k, x) {
      ReachList(Snap(nodes), items, ts, x);
    }
    Assign(root, k, VList(out), List(kept), nodes, {}, root, m, []);
  }

  /** What treeDelete leaves; it fails on an empty path only. */
  function Deleted(e: Fmt, m: TreeMap, path: seq<string>): TreeMap {
    match TreeDelete(e, m, path)
    case Ok(t) => t
    case Err(_) => m
  }

  /** What deleteKeyed leaves of a map with a keyed list at `k`. */
  function KeyedDeleted(e: Fmt, m: TreeMap, k: string, keyField: string, key: string, rest: seq<string>): TreeMap {
    if k !in m || !m[k].List? then m
    else
      var ts := m[k].items;
      if rest == [] then m[k := List(DropEntries(e, ts, keyField, key))]
      else
        var i := FindEntry(e, ts, keyField, key);
        if i == |ts| then m else m[k := List(ts[i := Map(Deleted(e, ts[i].m, rest))])]
  }

  lemma {:induction false} DeleteIsOk(e: Fmt, m: TreeMap, rawPath: seq<string>)
    requires rawPath != []
    ensures TreeDelete(e, m, rawPath).Ok?
    decreases |rawPath|
  {
    var path := NormalizePath(rawPath);
    if IsPopPath(path) && |path| > 2 && "pops" in m && m["pops"].List? {
      var items := m["pops"].items;
      var i := FindEntry(e, items, "id", path[1]);
      if i < |items| {
        DeleteIsOk(e, items[i].m, path[2..]);
      }
    }
  }

  lemma DeletePopIs(e: Fmt, m: TreeMap, rawPath: seq<string>, path: seq<string>)
    requires path == NormalizePath(rawPath) && IsPopPath(path)
    ensures TreeDelete(e, m, rawPath) == Ok(KeyedDeleted(e, m, "pops", "id", path[1], path[2..]))
  {
    if |path| > 2 && "pops" in m && m["pops"].List? {
      var items := m["pops"].items;
      var i := FindEntry(e, items, "id", path[1]);
      if i < |items| {
        DeleteIsOk(e, items[i].m, path[2..]);
      }
    }
  }

  lemma DeletePlainIs(e: Fmt, m: TreeMap, rawPath: seq<string>, path: seq<string>)
    requires path == NormalizePath(rawPath) && path != [] && !IsPopPath(path)
    ensures TreeDelete(e, m, rawPath) == Ok(DeleteNested(m, path))
  {
  }

  /** deleteKeyed: without a field the list is replaced, with one the deletion goes on in the entry
      found, in place. */
  method DeleteKeyedInPlace(
      e: Fmt, root: MapNode, k: string, keyField: string, key: string, rest: seq<string>,
      ghost nodes: set<MapNode>, ghost m: TreeMap)
    requires RepMap(Snap(nodes), root, m)
    modifies nodes
    ensures Evolves(old(Snap(nodes)), Snap(nodes), VMap(root), Map(m), Map(KeyedDeleted(e, m, k, keyField, key, rest)))
    decreases |rest|, 2
  {
    ghost var h := Snap(nodes);
    assert k in m ==> Rep(h, root.entries[k], m[k]);
    if k !in root.entries || !root.entries[k].VList? {
      return;
    }
    if rest == [] {
      DeleteEntries(e, root, k, keyField, key, nodes, m);
    } else {
      DeleteInEntry(e, root, k, keyField, key, rest, nodes, m);
    }
  }

  method DeleteInEntry(
      e: Fmt, root: MapNode, k: string, keyField: string, key: string, rest: seq<string>,
      ghost nodes: set<MapNode>, ghost m: TreeMap)
    requires rest != [] && RepMap(Snap(nodes), root, m) && k in m && m[k].List?
    modifies nodes
    ensures Evolves(old(Snap(nodes)), Snap(nodes), VMap(root), Map(m), Map(KeyedDeleted(e, m, k, keyField, key, rest)))
    decreases |rest|, 1
  {
    ghost var h := Snap(nodes);
    var items := ListAt(root, k, nodes, m);
    ghost var ts := m[k].items;
    var i := FindItem(e, items, keyField, key, nodes, ts);
    if i == |items| {
      return;
    }
    assert Rep(h, items[i], ts[i]);
    var err := TreeDeleteInPlace(e, items[i].node, rest, nodes, ts[i].m);
    UpEntry(h, Snap(nodes), root, m, [], root, k, items, i, Map(Deleted(e, ts[i].m, rest)));
  }

  /** treeDelete: it fails on an empty path only. */
  method TreeDeleteInPlace(e: Fmt, root: MapNode, rawPath: seq<string>, ghost nodes: set<MapNode>, ghost m: TreeMap)
    returns (err: Option<Error>)
    requires RepMap(Snap(nodes), root, m)
    modifies nodes
    ensures err == (if rawPath == [] then Some(EmptyPath) else None)
    ensures TreeDelete(e, m, rawPath) == (if rawPath == [] then Err(EmptyPath) else Ok(Deleted(e, m, rawPath)))
    ensures Evolves(old(Snap(nodes)), Snap(nodes), VMap(root), Map(m), Map(Deleted(e, m, rawPath)))
    decreases |rawPath|, 0
  {
    var path := NormalizePath(rawPath);
    if path == [] {
      return Some(EmptyPath);
    }
    err := None;
    if IsPopPath(path) {
      DeletePopIs(e, m, rawPath, path);
      DeleteKeyedInPlace(e, root, "pops", "id", path[1], path[2..], nodes, m);
    } else {
      DeletePlainIs(e, m, rawPath, path);
      DeleteInPlace(root, path, nodes, m);
    }
  }
}
