/** The server's manager, updated in place, against the steps of TunnelState. */
module TunnelServer {
  import opened Text
  import opened TunnelKey
  import S = TunnelState

  class Session {
    var open: bool

    constructor ()
      ensures open
    {
      open := true;
    }

    method Close()
      modifies this
      ensures !open
    {
      open := false;
    }
  }

  /** `ref` is its position among this process's sessions. */
  class LiveTunnel {
    ghost const key: string
    ghost const ref: nat
    const namespace: string
    const subdomain: string
    const remote: string
    const connectedAt: int
    const session: Session
    ghost var done: bool
    ghost var swept: bool

    constructor (ghost key: string, ghost ref: nat, namespace: string, subdomain: string, remote: string,
                 connectedAt: int, session: Session)
      ensures this.key == key && this.ref == ref && this.session == session
      ensures Record() == S.Rec(key, namespace, subdomain, remote, connectedAt, session.open, false, false)
    {
      this.key := key;
      this.ref := ref;
      this.namespace := namespace;
      this.subdomain := subdomain;
      this.remote := remote;
      this.connectedAt := connectedAt;
      this.session := session;
      done := false;
      swept := false;
    }

    /** Closes the session, as part of the shutdown sweep. */
    method Shut()
      modifies this, session
      ensures Record() == old(Record()).(open := false, swept := true)
    {
      session.Close();
      swept := true;
    }

    ghost method Finish()
      modifies this
      ensures Record() == old(Record()).(done := true)
    {
      done := true;
    }

    ghost function Record(): S.Rec
      reads this, session
    {
      S.Rec(key, namespace, subdomain, remote, connectedAt, session.open, done, swept)
    }
  }

  ghost function Sessions(ts: seq<LiveTunnel>): set<Session> {
    set i | 0 <= i < |ts| :: ts[i].session
  }

  ghost function Records(ts: seq<LiveTunnel>): (r: seq<S.Rec>)
    reads ts, Sessions(ts)
    ensures |r| == |ts| && forall i | 0 <= i < |r| :: r[i] == ts[i].Record()
  {
    assert forall i | 0 <= i < |ts| :: ts[i].session in Sessions(ts);
    seq(|ts|, i requires 0 <= i < |ts| reads ts, Sessions(ts) => ts[i].Record())
  }

  ghost function Refs(m: map<string, LiveTunnel>): (r: map<string, nat>)
    ensures r.Keys == m.Keys && forall k | k in m :: r[k] == m[k].ref
  {
    map k | k in m :: m[k].ref
  }

  lemma RefsWithout(m: map<string, LiveTunnel>, key: string)
    ensures Refs(m - {key}) == Refs(m) - {key}
  {
  }

  lemma HeldRef(recs: seq<LiveTunnel>, m: map<string, LiveTunnel>, key: string, rec: LiveTunnel)
    requires Owned(recs, m) && rec.ref < |recs| && recs[rec.ref] == rec
    ensures key in m && m[key] == rec <==> key in Refs(m) && Refs(m)[key] == rec.ref
  {
  }

  ghost predicate Owned(recs: seq<LiveTunnel>, m: map<string, LiveTunnel>) {
    && (forall i | 0 <= i < |recs| :: recs[i].ref == i)
    && (forall i, j | 0 <= i < j < |recs| :: recs[i].session != recs[j].session)
    && (forall k | k in m :: m[k].ref < |recs| && recs[m[k].ref] == m[k])
  }

  lemma OwnedSnoc(recs: seq<LiveTunnel>, m: map<string, LiveTunnel>, key: string, rec: LiveTunnel)
    requires Owned(recs, m) && rec.ref == |recs| && rec.session !in Sessions(recs)
    ensures Owned(recs + [rec], m[key := rec]) && Refs(m[key := rec]) == Refs(m)[key := rec.ref]
  {
    assert forall i | 0 <= i < |recs| :: recs[i].session in Sessions(recs);
  }

  // ---------------------------------------------------------------- sorting by key

  /** `t` goes before the first entry of a larger key. */
  function Insert(list: seq<S.Snap>, t: S.Snap): seq<S.Snap> {
    if list == [] || Less(t.tunnelKey, list[0].tunnelKey) then [t] + list
    else [list[0]] + Insert(list[1..], t)
  }

  ghost predicate Above(list: seq<S.Snap>, k: string) {
    forall i | 0 <= i < |list| :: Less(k, list[i].tunnelKey)
  }

  ghost predicate Absent(list: seq<S.Snap>, k: string) {
    forall i | 0 <= i < |list| :: list[i].tunnelKey != k
  }

  lemma {:induction false} InsertMembers(list: seq<S.Snap>, t: S.Snap)
    ensures forall x :: x in Insert(list, t) <==> x in list || x == t
  {
    if !(list == [] || Less(t.tunnelKey, list[0].tunnelKey)) {
      InsertMembers(list[1..], t);
      assert list == [list[0]] + list[1..];
    }
  }

  lemma AboveMore(list: seq<S.Snap>, a: string, b: string)
    requires Above(list, b) && Less(a, b)
    ensures Above(list, a)
  {
    forall i | 0 <= i < |list| ensures Less(a, list[i].tunnelKey) {
      LessTransitive(a, b, list[i].tunnelKey);
    }
  }

  lemma SortedCons(t: S.Snap, list: seq<S.Snap>)
    requires S.Sorted(list) && Above(list, t.tunnelKey)
    ensures S.Sorted([t] + list)
  {
  }

  lemma {:induction false} InsertSorted(list: seq<S.Snap>, t: S.Snap)
    requires S.Sorted(list) && Absent(list, t.tunnelKey)
    ensures S.Sorted(Insert(list, t))
  {
    if list != [] {
      var rest := list[1..];
      assert Above(rest, list[0].tunnelKey);
      LessTotal(t.tunnelKey, list[0].tunnelKey);
      if Less(t.tunnelKey, list[0].tunnelKey) {
        AboveMore(rest, t.tunnelKey, list[0].tunnelKey);
        assert list == [list[0]] + rest;
        SortedCons(t, list);
      } else {
        InsertSorted(rest, t);
        InsertMembers(rest, t);
        var r := Insert(rest, t);
        forall i | 0 <= i < |r| ensures Less(list[0].tunnelKey, r[i].tunnelKey) {
          assert r[i] in r;
        }
        SortedCons(list[0], r);
      }
    }
  }

  lemma ListingInsert(list: seq<S.Snap>, m: map<string, S.Snap>, t: S.Snap)
    requires S.Listing(list, m) && t.tunnelKey !in m
    ensures S.Listing(Insert(list, t), m[t.tunnelKey := t])
  {
    var r := Insert(list, t);
    var m' := m[t.tunnelKey := t];
    InsertMembers(list, t);
    InsertSorted(list, t);
    assert S.Sorted(r);
    forall i | 0 <= i < |r| ensures r[i].tunnelKey in m' && m'[r[i].tunnelKey] == r[i] {
      assert r[i] in r;
    }
    forall k | k in m' ensures exists i :: 0 <= i < |r| && r[i].tunnelKey == k {
      if k == t.tunnelKey {
        assert t in r;
      } else {
        var j :| 0 <= j < |list| && list[j].tunnelKey == k;
        assert list[j] in r;
      }
      var x :| x in r && x.tunnelKey == k;
      var i :| 0 <= i < |r| && r[i] == x;
    }
  }

  // ---------------------------------------------------------------- the manager

  /** `direct` is the routing mode. */
  class ServerManager {
    const direct: bool
    var tunnels: map<string, LiveTunnel>
    var pending: map<string, S.Snap>
    ghost var recs: seq<LiveTunnel>

    constructor (direct: bool)
      ensures Valid() && Abs() == S.Empty && this.direct == direct
    {
      this.direct := direct;
      tunnels := map[];
      pending := map[];
      recs := [];
    }

    ghost predicate Valid()
      reads this
    {
      Owned(recs, tunnels) && forall k | k in pending :: pending[k].tunnelKey == k
    }

    ghost function Abs(): (s: S.State)
      requires Valid()
      reads this, recs, Sessions(recs)
      ensures S.WF(s)
    {
      S.State(Records(recs), Refs(tunnels), pending)
    }

    function Compose(): (string, string) -> string
      reads this
    {
      (ns, sub) => ComposeTunnelKey(direct, ns, sub)
    }

    /** The first locked section of handleClientConnection: take over the key. */
    method Connect(namespace: string, subdomain: string, remote: string, now: int, session: Session)
      returns (rec: LiveTunnel, key: string)
      requires Valid() && session !in Sessions(recs)
      modifies this, Sessions(recs)
      ensures Valid() && fresh(rec) && recs == old(recs) + [rec] && rec.session == session && key == rec.key
      ensures Abs() == S.Connect(old(Abs()), S.NewRec(direct, namespace, subdomain, remote, now, session.open))
      ensures key == ComposeTunnelKey(direct, namespace, subdomain) && key in tunnels && tunnels[key] == rec
      ensures rec.namespace == NormalizeNamespace(namespace) && rec.remote == remote && rec.connectedAt == now
    {
      key := ComposeTunnelKey(direct, namespace, subdomain);
      var sub := subdomain;
      if direct {
        sub := DEFAULT_TUNNEL_KEY;
      }
      rec := new LiveTunnel(key, |recs|, NormalizeNamespace(namespace), sub, remote, now, session);
      ghost var made := S.NewRec(direct, namespace, subdomain, remote, now, session.open);
      assert rec.Record() == made;
      TakeOver(key, rec, made);
    }

    method TakeOver(key: string, rec: LiveTunnel, ghost made: S.Rec)
      requires Valid() && rec.session !in Sessions(recs) && rec.ref == |recs|
      requires rec.Record() == made && made.key == key
      modifies this, Sessions(recs)
      ensures Valid() && recs == old(recs) + [rec]
      ensures Abs() == S.Connect(old(Abs()), made)
    {
      CloseExisting(key);
      Install(key, rec);
    }

    method CloseExisting(key: string)
      requires Valid()
      modifies Sessions(recs)
      ensures Valid()
      ensures Abs() == old(Abs()).(recs := if key in tunnels then S.CloseAt(old(Abs()).recs, tunnels[key].ref)
                                           else old(Abs()).recs)
    {
      if key in tunnels {
        ghost var was := Records(recs);
        ghost var r := tunnels[key].ref;
        assert tunnels[key].session == recs[r].session;
        assert tunnels[key].session in Sessions(recs);
        tunnels[key].session.Close();
        assert Records(recs) == S.CloseAt(was, r);
      }
    }

    method Install(key: string, rec: LiveTunnel)
      requires Valid() && rec.session !in Sessions(recs) && rec.ref == |recs|
      modifies this
      ensures Valid() && recs == old(recs) + [rec]
      ensures Abs() == S.State(old(Abs()).recs + [rec.Record()], old(Abs()).tunnels[key := |old(recs)|],
                               old(Abs()).pending - {key})
    {
      ghost var was := Abs();
      OwnedSnoc(recs, tunnels, key, rec);
      recs := recs + [rec];
      tunnels := tunnels[key := rec];
      pending := pending - {key};
      assert Records(recs) == was.recs + [rec.Record()];
    }

    method Remove(key: string)
      requires Valid()
      modifies this`tunnels
      ensures Valid() && recs == old(recs) && Abs() == old(Abs()).(tunnels := old(Abs()).tunnels - {key})
    {
      RefsWithout(tunnels, key);
      tunnels := tunnels - {key};
    }

    method MarkDone(rec: LiveTunnel)
      requires Valid() && rec.ref < |recs| && recs[rec.ref] == rec && !rec.session.open
      modifies rec
      ensures Valid() && Abs() == old(Abs()).(recs := old(Abs()).recs[rec.ref := old(Abs()).recs[rec.ref].(done := true)])
    {
      ghost var was := Abs();
      rec.Finish();
      assert Records(recs) == was.recs[rec.ref := was.recs[rec.ref].(done := true)];
    }

    /** The second locked section: remove the record if it is still the table's. */
    method Teardown(rec: LiveTunnel, key: string)
      requires Valid() && rec.ref < |recs| && recs[rec.ref] == rec && key == rec.key && !rec.session.open
      modifies this`tunnels, rec
      ensures Valid() && recs == old(recs)
      ensures Abs() == S.Teardown(old(Abs()), rec.ref)
    {
      MarkDone(rec);
      HeldRef(recs, tunnels, key, rec);
      if key in tunnels && tunnels[key] == rec {
        Remove(key);
      }
    }

    /** buildSnapshot: entries are collected in any map order and come out sorted by key. */
    method BuildSnapshot() returns (snap: S.Snapshot)
      requires Valid()
      ensures S.IsSnapshot(Abs(), snap)
    {
      var live := SortLive(S.LiveSnaps(Abs()));
      var wait := SortPending();
      return S.Snapshot(live, wait);
    }

    method SortLive(ghost all: map<string, S.Snap>) returns (list: seq<S.Snap>)
      requires all.Keys == tunnels.Keys
      requires forall k | k in tunnels :: all[k] == S.SnapOf(tunnels[k].Record(), k)
      ensures S.Listing(list, all)
    {
      list := [];
      var todo := tunnels.Keys;
      ghost var m: map<string, S.Snap> := map[];
      while todo != {}
        invariant todo <= all.Keys && m.Keys == all.Keys - todo
        invariant forall k | k in m :: m[k] == all[k]
        invariant S.Listing(list, m)
        decreases |todo|
      {
        var k :| k in todo;
        var t := tunnels[k];
        var e := S.Snap(t.namespace, t.subdomain, k, t.remote, t.connectedAt);
        assert e == all[k];
        ListingInsert(list, m, e);
        list := Insert(list, e);
        m := m[k := e];
        todo := todo - {k};
      }
      assert m == all;
    }

    method SortPending() returns (list: seq<S.Snap>)
      requires Valid()
      ensures S.Listing(list, pending)
    {
      list := [];
      var todo := pending.Keys;
      ghost var m: map<string, S.Snap> := map[];
      while todo != {}
        invariant todo <= pending.Keys && m.Keys == pending.Keys - todo
        invariant forall k | k in m :: m[k] == pending[k]
        invariant S.Listing(list, m)
        decreases |todo|
      {
        var k :| k in todo;
        ListingInsert(list, m, pending[k]);
        list := Insert(list, pending[k]);
        m := m[k := pending[k]];
        todo := todo - {k};
      }
      assert m == pending;
    }

    method KeyFor(t: S.Snap) returns (key: string)
      ensures key == S.KeyOf(Compose(), t)
    {
      key := t.tunnelKey;
      if key == "" {
        key := ComposeTunnelKey(direct, t.namespace, t.subdomain);
      }
    }

    /** restoreSnapshot: only the pending entries are checked against the live table. */
    method RestoreSnapshot(snap: S.Snapshot)
      requires Valid()
      modifies this`pending
      ensures Valid() && Abs() == S.Restore(Compose(), old(Abs()), snap)
    {
      RestoreLive(snap.tunnels);
      RestoreWaiting(snap.pending);
    }

    method RestoreLive(list: seq<S.Snap>)
      requires Valid()
      modifies this`pending
      ensures Valid() && pending == S.RestoreTunnels(Compose(), old(pending), list)
    {
      for i := 0 to |list|
        invariant Valid() && pending == S.RestoreTunnels(Compose(), old(pending), list[..i])
      {
        assert list[..i + 1][..i] == list[..i];
        var key := KeyFor(list[i]);
        pending := pending[key := list[i].(tunnelKey := key)];
      }
      assert list[..|list|] == list;
    }

    method RestoreWaiting(list: seq<S.Snap>)
      requires Valid()
      modifies this`pending
      ensures Valid() && pending == S.RestorePending(Compose(), tunnels.Keys, old(pending), list)
    {
      for i := 0 to |list|
        invariant Valid() && pending == S.RestorePending(Compose(), tunnels.Keys, old(pending), list[..i])
      {
        assert list[..i + 1][..i] == list[..i];
        var key := KeyFor(list[i]);
        if key !in tunnels {
          pending := pending[key := list[i].(tunnelKey := key)];
        }
      }
      assert list[..|list|] == list;
    }

    /** closeAllTunnels. */
    method CloseAllTunnels()
      requires Valid()
      modifies this`tunnels, recs, Sessions(recs)
      ensures Valid() && recs == old(recs)
      ensures Abs() == S.CloseAll(old(Abs()))
    {
      ghost var gone := CloseEach(Records(recs));
      ClearedAll(old(tunnels), tunnels, gone);
    }

    method CloseEach(ghost was: seq<S.Rec>) returns (ghost gone: set<nat>)
      requires Valid() && was == Records(recs)
      modifies this`tunnels, recs, Sessions(recs)
      ensures Valid() && Cleared(old(tunnels), tunnels, {}, gone) && Records(recs) == S.Sweep(was, gone)
    {
      gone := {};
      var todo := tunnels.Keys;
      while todo != {}
        invariant Valid() && Cleared(old(tunnels), tunnels, todo, gone)
        invariant Records(recs) == S.Sweep(was, gone)
        decreases |todo|
      {
        var k :| k in todo;
        ClearedStep(old(tunnels), tunnels, todo, gone, k);
        CloseOne(k, was, gone);
        gone := gone + {old(tunnels)[k].ref};
        todo := todo - {k};
      }
    }

    method CloseOne(k: string, ghost was: seq<S.Rec>, ghost gone: set<nat>)
      requires Valid() && k in tunnels && Records(recs) == S.Sweep(was, gone)
      modifies this`tunnels, recs, Sessions(recs)
      ensures Valid() && tunnels == old(tunnels) - {k}
      ensures Records(recs) == S.Sweep(was, gone + {old(tunnels[k]).ref})
    {
      ghost var x := tunnels[k].ref;
      ghost var before := Records(recs);
      tunnels[k].Shut();
      OnlyOneChanged(was, gone, before, Records(recs), x);
      tunnels := tunnels - {k};
    }
  }

  /** The sweep of `table` when `todo` are still to go. */
  ghost predicate Cleared(table: map<string, LiveTunnel>, now: map<string, LiveTunnel>, todo: set<string>, gone: set<nat>) {
    && todo <= table.Keys && now.Keys == todo
    && (forall k | k in todo :: now[k] == table[k])
    && (forall k | k in table && k !in todo :: table[k].ref in gone)
    && (forall x | x in gone :: x in Refs(table).Values)
  }

  lemma ClearedStep(
      table: map<string, LiveTunnel>, now: map<string, LiveTunnel>, todo: set<string>, gone: set<nat>, k: string)
    requires Cleared(table, now, todo, gone) && k in todo
    ensures k in now && now[k] == table[k]
    ensures Cleared(table, now - {k}, todo - {k}, gone + {table[k].ref})
  {
    assert Refs(table)[k] == table[k].ref;
  }

  lemma ClearedAll(table: map<string, LiveTunnel>, now: map<string, LiveTunnel>, gone: set<nat>)
    requires Cleared(table, now, {}, gone)
    ensures now == map[] && gone == Refs(table).Values
  {
    forall x | x in Refs(table).Values ensures x in gone {
      var k :| k in Refs(table) && Refs(table)[k] == x;
    }
  }

  lemma OnlyOneChanged(was: seq<S.Rec>, gone: set<nat>, before: seq<S.Rec>, after: seq<S.Rec>, x: nat)
    requires before == S.Sweep(was, gone) && |after| == |before| && x < |before|
    requires after[x] == before[x].(open := false, swept := true)
    requires forall i | 0 <= i < |before| && i != x :: after[i] == before[i]
    ensures after == S.Sweep(was, gone + {x})
  {
  }
}
