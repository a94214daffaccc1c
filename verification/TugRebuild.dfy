/** Setting the leaves of a tree one by one rebuilds it, whatever the order of the fields. */
module TugRebuild {
  import opened Text
  import opened TugTree
  import opened TugPrint

  /** Structure alone: no nulls or empty maps, and `roles` is never a scalar. */
  predicate Solid(t: Tree) {
    match t
    case Nil => false
    case Map(m) => m != map[] && SolidMap(m)
    case _ => true
  }

  predicate SolidMap(m: TreeMap)
    decreases Map(m), 0
  {
    forall k | k in m :: (k == "roles" ==> !m[k].Leaf?) && Solid(m[k])
  }

  // ---------------------------------------------------------------- plain subtrees as updates

  /** One `set` line below some path. */
  datatype Op = Op(path: seq<string>, val: Tree)

  function Lift(k: string, ops: seq<Op>): (r: seq<Op>)
    ensures |r| == |ops|
    ensures forall i | 0 <= i < |r| :: r[i] == Op([k] + ops[i].path, ops[i].val)
  {
    seq(|ops|, i requires 0 <= i < |ops| => Op([k] + ops[i].path, ops[i].val))
  }

  function ValueOps(o: OTree): seq<Op> {
    match o
    case OMap(fields) => FieldsOps(fields)
    case _ => [Op([], View(o))]
  }

  function FieldsOps(fields: seq<Field>): seq<Op> {
    if fields == [] then [] else Lift(fields[0].key, ValueOps(fields[0].val)) + FieldsOps(fields[1..])
  }

  predicate Proper(ops: seq<Op>) {
    forall i | 0 <= i < |ops| :: ops[i].path != []
  }

  lemma {:induction false} FieldsOpsProper(fields: seq<Field>)
    ensures Proper(FieldsOps(fields))
  {
    if fields != [] {
      FieldsOpsProper(fields[1..]);
    }
  }

  function NestRun(e: Fmt, m: TreeMap, ops: seq<Op>): TreeMap
    requires Proper(ops)
    decreases |ops|
  {
    if ops == [] then m else NestRun(e, SetNested(e, m, ops[0].path, ops[0].val), ops[1..])
  }

  lemma {:induction false} NestRunConcat(e: Fmt, m: TreeMap, a: seq<Op>, b: seq<Op>)
    requires Proper(a) && Proper(b)
    ensures Proper(a + b) && NestRun(e, m, a + b) == NestRun(e, NestRun(e, m, a), b)
    decreases |a|
  {
    if a == [] {
      assert a + b == b;
    } else {
      assert (a + b)[0] == a[0] && (a + b)[1..] == a[1..] + b;
      NestRunConcat(e, SetNested(e, m, a[0].path, a[0].val), a[1..], b);
    }
  }

  /** Updates below one key rebuild the map at that key. */
  lemma {:induction false} NestRunUnder(e: Fmt, m: TreeMap, k: string, ops: seq<Op>)
    requires ops != [] && Proper(ops)
    ensures Proper(Lift(k, ops))
    ensures NestRun(e, m, Lift(k, ops)) == m[k := Map(NestRun(e, SubMap(m, k), ops))]
    decreases |ops|
  {
    var lifted := Lift(k, ops);
    var path := [k] + ops[0].path;
    assert lifted[0] == Op(path, ops[0].val) && path[1..] == ops[0].path;
    var m' := SetNested(e, m, path, ops[0].val);
    assert SubMap(m', k) == SetNested(e, SubMap(m, k), ops[0].path, ops[0].val);
    assert lifted[1..] == Lift(k, ops[1..]);
    if |ops| > 1 {
      NestRunUnder(e, m', k, ops[1..]);
    }
  }

  lemma {:induction false} OpsNonEmpty(o: OTree)
    requires WellKeyed(o) && Solid(View(o))
    ensures ValueOps(o) != []
  {
    if o.OMap? {
      assert View(o) == Map(ViewFields(o.fields));
      ViewFieldsCons(o.fields);
      OpsNonEmpty(o.fields[0].val);
    }
  }

  /** Setting every leaf of a plain field builds exactly that field. */
  lemma {:induction false} FieldRebuild(e: Fmt, m: TreeMap, k: string, o: OTree)
    requires k !in m && WellKeyed(o) && Solid(View(o)) && (k == "roles" ==> !o.OLeaf?)
    ensures Proper(Lift(k, ValueOps(o)))
    ensures NestRun(e, m, Lift(k, ValueOps(o))) == m[k := View(o)]
    decreases o, 1
  {
    if o.OMap? {
      FieldsOpsProper(o.fields);
      OpsNonEmpty(o);
      NestRunUnder(e, m, k, FieldsOps(o.fields));
      FieldsRebuild(e, map[], o.fields);
      assert map[] + ViewFields(o.fields) == ViewFields(o.fields);
    } else {
      OneUpdate(e, m, k, o);
    }
  }

  lemma OneUpdate(e: Fmt, m: TreeMap, k: string, o: OTree)
    requires k !in m && !o.OMap? && Solid(View(o)) && (k == "roles" ==> !o.OLeaf?)
    ensures Proper(Lift(k, ValueOps(o))) && NestRun(e, m, Lift(k, ValueOps(o))) == m[k := View(o)]
  {
    var ops := Lift(k, ValueOps(o));
    assert ops[0].path == [k];
    assert ops == [ops[0]] && ops[1..] == [];
  }

  lemma {:induction false} FieldsRebuild(e: Fmt, m: TreeMap, fields: seq<Field>)
    requires WellKeyedFields(fields) && SolidMap(ViewFields(fields))
    requires m.Keys !! ViewFields(fields).Keys
    ensures Proper(FieldsOps(fields))
    ensures NestRun(e, m, FieldsOps(fields)) == m + ViewFields(fields)
    decreases fields, 0
  {
    FieldsOpsProper(fields);
    if fields != [] {
      var f := fields[0];
      var rest := fields[1..];
      FirstField(m, fields);
      FieldRebuild(e, m, f.key, f.val);
      FieldsRebuild(e, m[f.key := View(f.val)], rest);
      NestRunConcat(e, m, Lift(f.key, ValueOps(f.val)), FieldsOps(rest));
    }
  }

  /** The first field of a solid view beside the others. */
  lemma FirstField(m: TreeMap, fields: seq<Field>)
    requires fields != [] && WellKeyedFields(fields) && SolidMap(ViewFields(fields))
    requires m.Keys !! ViewFields(fields).Keys
    ensures var f, rest := fields[0], fields[1..];
            var m' := m[f.key := View(f.val)];
            && f.key !in m && WellKeyed(f.val) && Solid(View(f.val)) && (f.key == "roles" ==> !f.val.OLeaf?)
            && WellKeyedFields(rest) && SolidMap(ViewFields(rest)) && m'.Keys !! ViewFields(rest).Keys
            && m' + ViewFields(rest) == m + ViewFields(fields)
  {
    var f, rest := fields[0], fields[1..];
    ViewFieldsCons(fields);
    AddFirst(m, ViewFields(rest), f.key, View(f.val));
  }

  lemma AddFirst(m: TreeMap, rest: TreeMap, k: string, v: Tree)
    requires k !in rest && m.Keys !! rest[k := v].Keys && SolidMap(rest[k := v])
    ensures k !in m && Solid(v) && (k == "roles" ==> !v.Leaf?)
    ensures SolidMap(rest) && m[k := v].Keys !! rest.Keys && m[k := v] + rest == m + rest[k := v]
  {
    var all := rest[k := v];
    assert k in all && all[k] == v;
    assert forall j | j in rest :: j in all && all[j] == rest[j];
  }

  // ---------------------------------------------------------------- keyed entries as updates

  function KeyedRun(e: Fmt, items: seq<Tree>, keyField: string, key: string, ops: seq<Op>): seq<Tree>
    requires Proper(ops)
    decreases |ops|
  {
    if ops == [] then items
    else KeyedRun(e, SetKeyedItems(e, items, keyField, key, ops[0].path, ops[0].val), keyField, key, ops[1..])
  }

  predicate NoEntry(e: Fmt, items: seq<Tree>, keyField: string, key: string) {
    forall i | 0 <= i < |items| :: !IsEntry(e, items[i], keyField, key)
  }

  predicate Avoids(ops: seq<Op>, k: string) {
    forall i | 0 <= i < |ops| :: ops[i].path != [] && ops[i].path[0] != k
  }

  /** Updates of one entry act on the entry at the end of the list, found by its key. */
  lemma {:induction false} KeyedRunOnLast(e: Fmt, items: seq<Tree>, keyField: string, key: string,
                                          entry: TreeMap, ops: seq<Op>)
    requires NoEntry(e, items, keyField, key) && Avoids(ops, keyField)
    requires keyField in entry && entry[keyField] == Leaf(Str(key))
    ensures KeyedRun(e, items + [Map(entry)], keyField, key, ops) == items + [Map(NestRun(e, entry, ops))]
    decreases |ops|
  {
    if ops != [] {
      var all := items + [Map(entry)];
      var i := FindEntry(e, all, keyField, key);
      assert IsEntry(e, all[|items|], keyField, key);
      assert i == |items| by {
        assert forall j | 0 <= j < |items| :: all[j] == items[j];
      }
      var entry' := SetNested(e, entry, ops[0].path, ops[0].val);
      assert all[i := Map(entry')] == items + [Map(entry')];
      KeyedRunOnLast(e, items, keyField, key, entry', ops[1..]);
    }
  }

  lemma KeyedRunAppends(e: Fmt, items: seq<Tree>, keyField: string, key: string, ops: seq<Op>)
    requires NoEntry(e, items, keyField, key) && Avoids(ops, keyField) && ops != []
    ensures KeyedRun(e, items, keyField, key, ops)
         == items + [Map(NestRun(e, map[keyField := Leaf(Str(key))], ops))]
  {
    var entry := map[keyField := Leaf(Str(key))];
    KeyedRunOnLast(e, items, keyField, key, SetNested(e, entry, ops[0].path, ops[0].val), ops[1..]);
  }

  /** The fields of an entry other than its key. */
  function Children(fields: seq<Field>, skip: string): seq<Field> {
    if fields == [] then []
    else if fields[0].key == skip then Children(fields[1..], skip)
    else [fields[0]] + Children(fields[1..], skip)
  }

  lemma ViewCons(f: Field, rest: seq<Field>, c: seq<Field>, skip: string)
    requires WellKeyedFields([f] + rest) && f.key != skip
    requires WellKeyedFields(c) && ViewFields(c) == ViewFields(rest) - {skip}
    ensures WellKeyedFields([f] + c) && ViewFields([f] + c) == ViewFields([f] + rest) - {skip}
  {
    var all, kept := [f] + rest, [f] + c;
    assert all[0] == f && all[1..] == rest && kept[0] == f && kept[1..] == c;
    ViewFieldsCons(all);
    assert f.key !in ViewFields(c);
    ConsKeyed(f, c);
    ViewFieldsCons(kept);
  }

  lemma ConsKeyed(f: Field, c: seq<Field>)
    requires WellKeyedFields(c) && WellKeyed(f.val) && f.key !in ViewFields(c)
    ensures WellKeyedFields([f] + c)
  {
    ViewFieldsKeys(c);
    assert ([f] + c)[1..] == c;
  }

  lemma {:induction false} ChildrenView(fields: seq<Field>, skip: string)
    requires WellKeyedFields(fields)
    ensures WellKeyedFields(Children(fields, skip))
    ensures ViewFields(Children(fields, skip)) == ViewFields(fields) - {skip}
  {
    if fields != [] {
      var rest := fields[1..];
      ChildrenView(rest, skip);
      assert fields == [fields[0]] + rest;
      if fields[0].key == skip {
        ViewFieldsCons(fields);
        ViewFieldsKeys(rest);
      } else {
        ViewCons(fields[0], rest, Children(rest, skip), skip);
      }
    }
  }

  lemma {:induction false} FieldsOpsAvoid(fields: seq<Field>, k: string)
    requires !HasField(fields, k)
    ensures Avoids(FieldsOps(fields), k)
  {
    if fields != [] {
      assert fields[0].key != k;
      assert !HasField(fields[1..], k) by {
        assert forall i | 0 <= i < |fields| - 1 :: fields[1..][i] == fields[i + 1];
      }
      FieldsOpsAvoid(fields[1..], k);
    }
  }

  /** Setting the children of a fresh entry appends exactly that entry. */
  lemma EntryRebuild(e: Fmt, items: seq<Tree>, keyField: string, key: string, fields: seq<Field>)
    requires WellKeyedFields(fields)
    requires keyField in ViewFields(fields) && ViewFields(fields)[keyField] == Leaf(Str(key))
    requires ViewFields(fields) - {keyField} != map[] && SolidMap(ViewFields(fields) - {keyField})
    requires NoEntry(e, items, keyField, key)
    ensures var ops := FieldsOps(Children(fields, keyField));
            && ops != [] && Proper(ops)
            && KeyedRun(e, items, keyField, key, ops) == items + [View(OMap(fields))]
  {
    var cs := Children(fields, keyField);
    ChildrenView(fields, keyField);
    ChildrenOps(cs, keyField);
    ChildrenRun(e, map[keyField := Leaf(Str(key))], cs);
    KeyedRunAppends(e, items, keyField, key, FieldsOps(cs));
    PutBack(ViewFields(fields), keyField, Leaf(Str(key)));
  }

  lemma ChildrenRun(e: Fmt, start: TreeMap, cs: seq<Field>)
    requires WellKeyedFields(cs) && SolidMap(ViewFields(cs)) && start.Keys !! ViewFields(cs).Keys
    requires Proper(FieldsOps(cs))
    ensures NestRun(e, start, FieldsOps(cs)) == start + ViewFields(cs)
  {
    FieldsRebuild(e, start, cs);
  }

  lemma PutBack(m: TreeMap, k: string, v: Tree)
    requires k in m && m[k] == v
    ensures map[k := v] + (m - {k}) == m
  {
  }

  lemma ChildrenOps(cs: seq<Field>, keyField: string)
    requires WellKeyedFields(cs) && ViewFields(cs) != map[] && SolidMap(ViewFields(cs)) && keyField !in ViewFields(cs)
    ensures FieldsOps(cs) != [] && Proper(FieldsOps(cs)) && Avoids(FieldsOps(cs), keyField)
  {
    ViewFieldsKeys(cs);
    FieldsOpsAvoid(cs, keyField);
    assert View(OMap(cs)) == Map(ViewFields(cs));
    OpsNonEmpty(OMap(cs));
  }
}
