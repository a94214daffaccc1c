/** The server's tunnel table as a state machine: takeover, teardown, shutdown, restart. */
module TunnelState {
  import opened Text
  import opened TunnelKey

  datatype Snap = Snap(namespace: string, subdomain: string, tunnelKey: string, remote: string, connectedAt: int)

  /** A connected session and the handler that waits for it. `open` is the session; `done` is set
      by the handler's own teardown and `swept` by closeAllTunnels. */
  datatype Rec = Rec(
    key: string, namespace: string, subdomain: string, remote: string, connectedAt: int,
    open: bool, done: bool, swept: bool)

  /** `recs` are this process's sessions in the order they took the table's lock. */
  datatype State = State(recs: seq<Rec>, tunnels: map<string, nat>, pending: map<string, Snap>)

  datatype Snapshot = Snapshot(tunnels: seq<Snap>, pending: seq<Snap>)

  const Empty := State([], map[], map[])

  predicate WF(s: State) {
    forall k | k in s.tunnels :: s.tunnels[k] < |s.recs|
  }

  function CloseAt(recs: seq<Rec>, r: nat): seq<Rec>
    requires r < |recs|
  {
    recs[r := recs[r].(open := false)]
  }

  // ---------------------------------------------------------------- the locked sections

  /** The record a control message makes; `open` is false when the peer has already gone. */
  function NewRec(direct: bool, namespace: string, subdomain: string, remote: string, now: int, open: bool): Rec {
    Rec(ComposeTunnelKey(direct, namespace, subdomain), NormalizeNamespace(namespace),
        if direct then DEFAULT_TUNNEL_KEY else subdomain, remote, now, open, false, false)
  }

  function Connect(s: State, rec: Rec): State
    requires WF(s)
  {
    var recs := if rec.key in s.tunnels then CloseAt(s.recs, s.tunnels[rec.key]) else s.recs;
    State(recs + [rec], s.tunnels[rec.key := |s.recs|], s.pending - {rec.key})
  }

  function Teardown(s: State, r: nat): State
    requires WF(s) && r < |s.recs|
  {
    var k := s.recs[r].key;
    State(s.recs[r := s.recs[r].(done := true)],
          if k in s.tunnels && s.tunnels[k] == r then s.tunnels - {k} else s.tunnels,
          s.pending)
  }

  function Sweep(recs: seq<Rec>, gone: set<nat>): (r: seq<Rec>)
    ensures |r| == |recs|
    ensures forall i | 0 <= i < |r| :: r[i] == if i in gone then recs[i].(open := false, swept := true) else recs[i]
  {
    seq(|recs|, i requires 0 <= i < |recs| => if i in gone then recs[i].(open := false, swept := true) else recs[i])
  }

  function CloseAll(s: State): State
    requires WF(s)
  {
    State(Sweep(s.recs, s.tunnels.Values), map[], s.pending)
  }

  // ---------------------------------------------------------------- snapshot and restore

  function SnapOf(rec: Rec, key: string): Snap {
    Snap(rec.namespace, rec.subdomain, key, rec.remote, rec.connectedAt)
  }

  function LiveSnaps(s: State): map<string, Snap>
    requires WF(s)
  {
    map k | k in s.tunnels :: SnapOf(s.recs[s.tunnels[k]], k)
  }

  /** `list` holds exactly the entries of `m`, in strictly ascending order of their keys. */
  ghost predicate Listing(list: seq<Snap>, m: map<string, Snap>) {
    && (forall i, j | 0 <= i < j < |list| :: Less(list[i].tunnelKey, list[j].tunnelKey))
    && (forall i | 0 <= i < |list| :: list[i].tunnelKey in m && m[list[i].tunnelKey] == list[i])
    && (forall k | k in m :: exists i :: 0 <= i < |list| && list[i].tunnelKey == k)
  }

  ghost predicate IsSnapshot(s: State, snap: Snapshot)
    requires WF(s)
  {
    Listing(snap.tunnels, LiveSnaps(s)) && Listing(snap.pending, s.pending)
  }

  /** `compose` builds a key from namespace and subdomain, for entries that carry none. */
  function KeyOf(compose: (string, string) -> string, t: Snap): string {
    if t.tunnelKey == "" then compose(t.namespace, t.subdomain) else t.tunnelKey
  }

  function RestoreTunnels(compose: (string, string) -> string, pending: map<string, Snap>, list: seq<Snap>): map<string, Snap> {
    if list == [] then pending
    else
      var n := |list| - 1;
      var t := list[n].(tunnelKey := KeyOf(compose, list[n]));
      RestoreTunnels(compose, pending, list[..n])[t.tunnelKey := t]
  }

  function RestorePending(
      compose: (string, string) -> string, live: set<string>, pending: map<string, Snap>, list: seq<Snap>): map<string, Snap> {
    if list == [] then pending
    else
      var n := |list| - 1;
      var t := list[n].(tunnelKey := KeyOf(compose, list[n]));
      var before := RestorePending(compose, live, pending, list[..n]);
      if t.tunnelKey in live then before else before[t.tunnelKey := t]
  }

  /** restoreSnapshot. */
  function Restore(compose: (string, string) -> string, s: State, snap: Snapshot): State {
    s.(pending := RestorePending(compose, s.tunnels.Keys,
                                 RestoreTunnels(compose, s.pending, snap.tunnels), snap.pending))
  }

  // ---------------------------------------------------------------- runs

  /** A restart ends the process and starts a new one from a snapshot of its last state. */
  datatype Step =
    | Connects(rec: Rec)
    | Closes(r: nat)
    | TearsDown(r: nat)
    | ClosesAll
    | Restarts(snap: Snapshot)

  ghost predicate Enabled(compose: (string, string) -> string, s: State, st: Step)
    requires WF(s)
  {
    match st
    case Connects(rec) => rec.key == compose(rec.namespace, rec.subdomain) && !rec.done && !rec.swept
    case Closes(r) => r < |s.recs|
    case TearsDown(r) => r < |s.recs| && !s.recs[r].open && !s.recs[r].done
    case ClosesAll => true
    case Restarts(snap) => IsSnapshot(s, snap)
  }

  ghost function Next(compose: (string, string) -> string, s: State, st: Step): State
    requires WF(s) && Enabled(compose, s, st)
  {
    match st
    case Connects(rec) => Connect(s, rec)
    case Closes(r) => s.(recs := CloseAt(s.recs, r))
    case TearsDown(r) => Teardown(s, r)
    case ClosesAll => CloseAll(s)
    case Restarts(snap) => Restore(compose, Empty, snap)
  }

  ghost predicate Reach(compose: (string, string) -> string, s: State, steps: seq<Step>, t: State)
    requires WF(s)
    decreases |steps|
  {
    if steps == [] then s == t
    else
      && Enabled(compose, s, steps[0])
      && var s' := Next(compose, s, steps[0]);
         WF(s') && Reach(compose, s', steps[1..], t)
  }

  // ---------------------------------------------------------------- the invariant

  /** No later session has the key of session `r`. */
  ghost predicate Latest(s: State, r: nat) {
    r < |s.recs| && forall q | r < q < |s.recs| :: s.recs[q].key != s.recs[r].key
  }

  /** Session `r` is the table's record of its key. */
  predicate Held(s: State, r: nat) {
    r < |s.recs| && s.recs[r].key in s.tunnels && s.tunnels[s.recs[r].key] == r
  }

  /** The table's record of a key is its latest session, from connecting until its own teardown or
      the shutdown sweep; and no other session is open. */
  ghost predicate TableOk(s: State) {
    && (forall k | k in s.tunnels :: s.tunnels[k] < |s.recs| && s.recs[s.tunnels[k]].key == k)
    && (forall r | 0 <= r < |s.recs| :: Held(s, r) <==> Latest(s, r) && !s.recs[r].done && !s.recs[r].swept)
    && (forall r | 0 <= r < |s.recs| :: s.recs[r].open ==> Held(s, r))
  }

  ghost predicate KeysOk(compose: (string, string) -> string, s: State) {
    && (forall r | 0 <= r < |s.recs| :: s.recs[r].key == compose(s.recs[r].namespace, s.recs[r].subdomain))
    && (forall k | k in s.pending ::
          s.pending[k].tunnelKey == k && k == compose(s.pending[k].namespace, s.pending[k].subdomain))
  }

  ghost predicate Inv(compose: (string, string) -> string, s: State) {
    TableOk(s) && KeysOk(compose, s) && s.tunnels.Keys !! s.pending.Keys
  }

  /** The earlier sessions after a connect: those of the same key are superseded. */
  lemma ConnectSupersedes(s: State, rec: Rec, r: nat)
    requires TableOk(s) && r < |s.recs|
    ensures WF(s)
    ensures var t := Connect(s, rec);
            && t.recs[r].key == s.recs[r].key && t.recs[r].namespace == s.recs[r].namespace
            && t.recs[r].subdomain == s.recs[r].subdomain
            && t.recs[r].done == s.recs[r].done && t.recs[r].swept == s.recs[r].swept
            && (t.recs[r].open <==> s.recs[r].open && !(Held(s, r) && s.recs[r].key == rec.key))
            && (Held(t, r) <==> Held(s, r) && s.recs[r].key != rec.key)
  {
  }

  lemma ConnectOrder(s: State, rec: Rec, r: nat)
    requires TableOk(s) && r < |s.recs|
    ensures Latest(Connect(s, rec), r) <==> Latest(s, r) && s.recs[r].key != rec.key
  {
    var t := Connect(s, rec);
    assert t.recs[|s.recs|] == rec;
    forall q | 0 <= q < |s.recs| ensures t.recs[q].key == s.recs[q].key {
      ConnectSupersedes(s, rec, q);
    }
  }

  lemma ConnectTable(s: State, rec: Rec)
    requires TableOk(s) && !rec.done && !rec.swept
    ensures WF(s) && TableOk(Connect(s, rec))
  {
    var t := Connect(s, rec);
    forall r | 0 <= r < |s.recs|
      ensures Held(t, r) <==> Latest(t, r) && !t.recs[r].done && !t.recs[r].swept
      ensures t.recs[r].open ==> Held(t, r)
    {
      ConnectSupersedes(s, rec, r);
      ConnectOrder(s, rec, r);
    }
    assert Held(t, |s.recs|) && Latest(t, |s.recs|);
    forall k | k in t.tunnels ensures t.tunnels[k] < |t.recs| && t.recs[t.tunnels[k]].key == k {
      if k != rec.key {
        ConnectSupersedes(s, rec, s.tunnels[k]);
      }
    }
  }

  lemma ConnectKeeps(compose: (string, string) -> string, s: State, rec: Rec)
    requires Inv(compose, s) && rec.key == compose(rec.namespace, rec.subdomain) && !rec.done && !rec.swept
    ensures WF(s) && Inv(compose, Connect(s, rec))
  {
    ConnectTable(s, rec);
    var t := Connect(s, rec);
    forall r | 0 <= r < |t.recs| ensures t.recs[r].key == compose(t.recs[r].namespace, t.recs[r].subdomain) {
      if r < |s.recs| {
        ConnectSupersedes(s, rec, r);
      }
    }
  }

  lemma ClosesKeeps(compose: (string, string) -> string, s: State, r: nat)
    requires Inv(compose, s) && r < |s.recs|
    ensures Inv(compose, s.(recs := CloseAt(s.recs, r)))
  {
    var t := s.(recs := CloseAt(s.recs, r));
    SameTable(s, t);
  }

  /** Sessions that keep their keys keep their order. */
  lemma SameTable(s: State, t: State)
    requires |t.recs| == |s.recs| && forall q | 0 <= q < |s.recs| :: t.recs[q].key == s.recs[q].key
    ensures forall q | 0 <= q < |s.recs| :: Latest(t, q) <==> Latest(s, q)
    ensures t.tunnels == s.tunnels ==> forall q | 0 <= q < |s.recs| :: Held(t, q) <==> Held(s, q)
  {
    forall q | 0 <= q < |s.recs| ensures Latest(t, q) <==> Latest(s, q) {
      assert forall p | q < p < |s.recs| :: t.recs[p].key == s.recs[p].key;
    }
  }

  lemma TeardownKeeps(compose: (string, string) -> string, s: State, r: nat)
    requires Inv(compose, s) && r < |s.recs| && !s.recs[r].open
    ensures Inv(compose, Teardown(s, r))
  {
    var t := Teardown(s, r);
    SameTable(s, t);
    forall q | 0 <= q < |s.recs| ensures Held(t, q) <==> Held(s, q) && q != r {
    }
  }

  lemma CloseAllKeeps(compose: (string, string) -> string, s: State)
    requires Inv(compose, s)
    ensures Inv(compose, CloseAll(s))
  {
    var t := CloseAll(s);
    SameTable(s, t);
    forall q | 0 <= q < |s.recs| ensures q in s.tunnels.Values <==> Held(s, q) {
      if q in s.tunnels.Values {
        var k :| k in s.tunnels && s.tunnels[k] == q;
      }
    }
  }

  // ---------------------------------------------------------------- restoring

  /** The entries of `list` are pending under their own keys. */
  lemma {:induction false} RestoreTunnelsIs(compose: (string, string) -> string, pending: map<string, Snap>, list: seq<Snap>, k: string)
    ensures k in RestoreTunnels(compose, pending, list) <==>
              k in pending || exists i :: 0 <= i < |list| && KeyOf(compose, list[i]) == k
  {
    if list != [] {
      var n := |list| - 1;
      RestoreTunnelsIs(compose, pending, list[..n], k);
    }
  }

  lemma {:induction false} RestorePendingIs(
      compose: (string, string) -> string, live: set<string>, pending: map<string, Snap>, list: seq<Snap>, k: string)
    ensures k in RestorePending(compose, live, pending, list) <==>
              k in pending || (k !in live && exists i :: 0 <= i < |list| && KeyOf(compose, list[i]) == k)
  {
    if list != [] {
      var n := |list| - 1;
      RestorePendingIs(compose, live, pending, list[..n], k);
    }
  }

  /** Restoring onto a running server keeps live and pending disjoint exactly when none of the
      snapshot's live tunnels is live again; its pending ones are checked by the code. */
  lemma RestoreOnRunningServer(compose: (string, string) -> string, s: State, snap: Snapshot)
    requires s.tunnels.Keys !! s.pending.Keys
    ensures Restore(compose, s, snap).tunnels.Keys !! Restore(compose, s, snap).pending.Keys
       <==> forall i | 0 <= i < |snap.tunnels| :: KeyOf(compose, snap.tunnels[i]) !in s.tunnels
  {
    var mid := RestoreTunnels(compose, s.pending, snap.tunnels);
    var t := Restore(compose, s, snap);
    forall k | k in s.tunnels
      ensures k in t.pending <==> exists i :: 0 <= i < |snap.tunnels| && KeyOf(compose, snap.tunnels[i]) == k
    {
      RestoreTunnelsIs(compose, s.pending, snap.tunnels, k);
      RestorePendingIs(compose, s.tunnels.Keys, mid, snap.pending, k);
    }
    if forall i | 0 <= i < |snap.tunnels| :: KeyOf(compose, snap.tunnels[i]) !in s.tunnels {
      assert forall k | k in s.tunnels :: k !in t.pending;
    } else {
      var i :| 0 <= i < |snap.tunnels| && KeyOf(compose, snap.tunnels[i]) in s.tunnels;
      assert KeyOf(compose, snap.tunnels[i]) in t.pending;
    }
  }

  /** Entries whose key is the composed one, no key twice, restore as themselves. */
  ghost predicate Keyed(compose: (string, string) -> string, m: map<string, Snap>) {
    forall k | k in m :: m[k].tunnelKey == k && k == compose(m[k].namespace, m[k].subdomain)
  }

  lemma KeyedEntry(compose: (string, string) -> string, list: seq<Snap>, m: map<string, Snap>, i: nat)
    requires Listing(list, m) && Keyed(compose, m) && i < |list|
    ensures list[i].(tunnelKey := KeyOf(compose, list[i])) == list[i]
  {
    assert m[list[i].tunnelKey] == list[i];
  }

  function Put(pending: map<string, Snap>, list: seq<Snap>): map<string, Snap> {
    if list == [] then pending else Put(pending, list[..|list| - 1])[list[|list| - 1].tunnelKey := list[|list| - 1]]
  }

  lemma {:induction false} RestoreIsPut(
      compose: (string, string) -> string, live: set<string>, pending: map<string, Snap>, list: seq<Snap>)
    requires forall i | 0 <= i < |list| :: list[i].(tunnelKey := KeyOf(compose, list[i])) == list[i]
    requires forall i | 0 <= i < |list| :: list[i].tunnelKey !in live
    ensures RestoreTunnels(compose, pending, list) == Put(pending, list)
    ensures RestorePending(compose, live, pending, list) == Put(pending, list)
  {
    if list != [] {
      RestoreIsPut(compose, live, pending, list[..|list| - 1]);
    }
  }

  ghost predicate Has(list: seq<Snap>, k: string) {
    exists i :: 0 <= i < |list| && list[i].tunnelKey == k
  }

  lemma {:induction false} PutIs(pending: map<string, Snap>, list: seq<Snap>, m: map<string, Snap>, k: string)
    requires forall i | 0 <= i < |list| :: list[i].tunnelKey in m && m[list[i].tunnelKey] == list[i]
    ensures k in Put(pending, list) <==> k in pending || Has(list, k)
    ensures k in Put(pending, list) ==> Put(pending, list)[k] == if Has(list, k) then m[k] else pending[k]
  {
    if list != [] {
      var n := |list| - 1;
      PutIs(pending, list[..n], m, k);
      HasSnoc(list, k);
    }
  }

  lemma HasSnoc(list: seq<Snap>, k: string)
    requires list != []
    ensures Has(list, k) <==> Has(list[..|list| - 1], k) || list[|list| - 1].tunnelKey == k
  {
    var n := |list| - 1;
    if Has(list[..n], k) {
      var i :| 0 <= i < n && list[..n][i].tunnelKey == k;
      assert list[i].tunnelKey == k;
    }
    if Has(list, k) && list[n].tunnelKey != k {
      var i :| 0 <= i < |list| && list[i].tunnelKey == k;
      assert list[..n][i].tunnelKey == k;
    }
  }

  lemma PutListing(pending: map<string, Snap>, list: seq<Snap>, m: map<string, Snap>)
    requires Listing(list, m)
    ensures Put(pending, list) == pending + m
  {
    forall k
      ensures k in Put(pending, list) <==> k in pending + m
      ensures k in Put(pending, list) ==> Put(pending, list)[k] == (pending + m)[k]
    {
      PutIs(pending, list, m, k);
      assert Has(list, k) <==> k in m;
    }
  }

  lemma ListingRestores(
      compose: (string, string) -> string, live: set<string>, pending: map<string, Snap>, list: seq<Snap>, m: map<string, Snap>)
    requires Listing(list, m) && Keyed(compose, m) && live !! m.Keys
    ensures RestoreTunnels(compose, pending, list) == pending + m
    ensures RestorePending(compose, live, pending, list) == pending + m
  {
    forall i | 0 <= i < |list|
      ensures list[i].(tunnelKey := KeyOf(compose, list[i])) == list[i] && list[i].tunnelKey !in live
    {
      KeyedEntry(compose, list, m, i);
    }
    RestoreIsPut(compose, live, pending, list);
    PutListing(pending, list, m);
  }

  /** Everything the server knows, live or awaited. */
  function Inventory(s: State): map<string, Snap>
    requires WF(s)
  {
    s.pending + LiveSnaps(s)
  }

  lemma LiveSnapsKeyed(compose: (string, string) -> string, s: State)
    requires Inv(compose, s)
    ensures WF(s) && Keyed(compose, LiveSnaps(s)) && Keyed(compose, s.pending)
  {
  }

  lemma BothOrders(a: map<string, Snap>, b: map<string, Snap>)
    requires a.Keys !! b.Keys
    ensures map[] + b + a == a + b
  {
  }

  lemma RestoredPending(compose: (string, string) -> string, s: State, snap: Snapshot)
    requires Inv(compose, s) && IsSnapshot(s, snap)
    ensures Restore(compose, Empty, snap).pending == Inventory(s)
  {
    LiveSnapsKeyed(compose, s);
    assert Empty.tunnels.Keys == {};
    ListingRestores(compose, {}, map[], snap.tunnels, LiveSnaps(s));
    ListingRestores(compose, {}, map[] + LiveSnaps(s), snap.pending, s.pending);
    BothOrders(s.pending, LiveSnaps(s));
  }

  lemma NothingLive(t: State)
    requires t.tunnels == map[]
    ensures LiveSnaps(t) == map[] && Inventory(t) == t.pending
  {
  }

  lemma InventoryKeyed(compose: (string, string) -> string, s: State)
    requires Inv(compose, s)
    ensures Keyed(compose, Inventory(s))
  {
    LiveSnapsKeyed(compose, s);
  }

  /** Snapshot, restart and restore: what was live or pending is pending, entry for entry. */
  lemma RestartKeepsInventory(compose: (string, string) -> string, s: State, snap: Snapshot)
    requires Inv(compose, s) && IsSnapshot(s, snap)
    ensures var t := Restore(compose, Empty, snap);
            && Inv(compose, t) && t.recs == [] && t.tunnels == map[]
            && t.pending == Inventory(s) && Inventory(t) == Inventory(s)
  {
    RestoredPending(compose, s, snap);
    NothingLive(Restore(compose, Empty, snap));
    InventoryKeyed(compose, s);
  }

  lemma StepKeeps(compose: (string, string) -> string, s: State, st: Step)
    requires Inv(compose, s) && Enabled(compose, s, st)
    ensures Inv(compose, Next(compose, s, st))
  {
    match st
    case Connects(rec) => ConnectKeeps(compose, s, rec);
    case Closes(r) => ClosesKeeps(compose, s, r);
    case TearsDown(r) => TeardownKeeps(compose, s, r);
    case ClosesAll => CloseAllKeeps(compose, s);
    case Restarts(snap) => RestartKeepsInventory(compose, s, snap);
  }

  lemma {:induction false} RunKeeps(compose: (string, string) -> string, s: State, steps: seq<Step>, t: State)
    requires Inv(compose, s) && Reach(compose, s, steps, t)
    ensures Inv(compose, t)
    decreases |steps|
  {
    if steps != [] {
      StepKeeps(compose, s, steps[0]);
      RunKeeps(compose, Next(compose, s, steps[0]), steps[1..], t);
    }
  }

  // ---------------------------------------------------------------- main results

  /** After any run, restarts included: a key has at most one open session and it is the table's
      record; the table holds a key's latest session from its connecting until its own teardown or
      the shutdown sweep; and no key is both live and pending. */
  lemma RunsAreSafe(compose: (string, string) -> string, steps: seq<Step>, t: State)
    requires Reach(compose, Empty, steps, t)
    ensures forall q, r | 0 <= q < |t.recs| && 0 <= r < |t.recs| && t.recs[q].open && t.recs[r].open ::
              t.recs[q].key == t.recs[r].key ==> q == r
    ensures forall r | 0 <= r < |t.recs| && t.recs[r].open :: Held(t, r)
    ensures forall r | 0 <= r < |t.recs| :: Held(t, r) <==> Latest(t, r) && !t.recs[r].done && !t.recs[r].swept
    ensures t.tunnels.Keys !! t.pending.Keys
  {
    RunKeeps(compose, Empty, steps, t);
  }

  /** The teardown of a superseded session leaves table and pending as they are. */
  lemma SupersededTeardown(compose: (string, string) -> string, s: State, q: nat, r: nat)
    requires Inv(compose, s) && q < r < |s.recs| && s.recs[q].key == s.recs[r].key
    ensures Teardown(s, q).tunnels == s.tunnels && Teardown(s, q).pending == s.pending
  {
    assert !Latest(s, q);
  }

  /** What one step does to the keys the server knows. */
  lemma InventoryStep(compose: (string, string) -> string, s: State, st: Step)
    requires Inv(compose, s) && Enabled(compose, s, st)
    ensures Inv(compose, Next(compose, s, st))
    ensures var before, after := Inventory(s).Keys, Inventory(Next(compose, s, st)).Keys;
            after == match st
                     case Connects(rec) => before + {rec.key}
                     case Closes(r) => before
                     case TearsDown(r) => if Held(s, r) then before - {s.recs[r].key} else before
                     case ClosesAll => s.pending.Keys
                     case Restarts(snap) => before
  {
    StepKeeps(compose, s, st);
    if st.Restarts? {
      RestartKeepsInventory(compose, s, st.snap);
    } else {
      TableStep(compose, s, st);
      InventoryKeys(s);
      InventoryKeys(Next(compose, s, st));
    }
  }

  lemma InventoryKeys(s: State)
    requires WF(s)
    ensures Inventory(s).Keys == s.pending.Keys + s.tunnels.Keys
  {
  }

  lemma TableStep(compose: (string, string) -> string, s: State, st: Step)
    requires WF(s) && Enabled(compose, s, st) && !st.Restarts?
    ensures var s' := Next(compose, s, st);
            var before := s.pending.Keys + s.tunnels.Keys;
            s'.pending.Keys + s'.tunnels.Keys ==
            match st
            case Connects(rec) => before + {rec.key}
            case Closes(r) => before
            case TearsDown(r) => if Held(s, r) then s.pending.Keys + (s.tunnels.Keys - {s.recs[r].key}) else before
            case ClosesAll => s.pending.Keys
  {
  }

  ghost predicate AllRestarts(steps: seq<Step>) {
    forall i | 0 <= i < |steps| :: steps[i].Restarts?
  }

  /** Any number of restarts in a row keep every entry. */
  lemma {:induction false} ManyRestarts(compose: (string, string) -> string, s: State, steps: seq<Step>, t: State)
    requires Inv(compose, s) && AllRestarts(steps) && Reach(compose, s, steps, t)
    ensures WF(t) && Inventory(t) == Inventory(s)
    ensures steps != [] ==> t.tunnels == map[] && t.pending == Inventory(s)
    decreases |steps|
  {
    if steps != [] {
      RestartKeepsInventory(compose, s, steps[0].snap);
      ManyRestarts(compose, Next(compose, s, steps[0]), steps[1..], t);
    }
  }

  /** The entries of a map have one listing, so a snapshot does not depend on map order. */
  lemma {:induction false} ListingIsUnique(a: seq<Snap>, b: seq<Snap>, m: map<string, Snap>)
    requires Listing(a, m) && Listing(b, m)
    ensures a == b
  {
    SameKeysSameOrder(a, b);
  }

  ghost predicate Sorted(a: seq<Snap>) {
    forall i, j | 0 <= i < j < |a| :: Less(a[i].tunnelKey, a[j].tunnelKey)
  }

  ghost predicate Within(a: seq<Snap>, b: seq<Snap>) {
    forall i | 0 <= i < |a| :: a[i] in b
  }

  lemma WithinEmpty(a: seq<Snap>, b: seq<Snap>)
    requires Within(a, b)
    ensures a != [] ==> b != []
  {
    if a != [] {
      assert a[0] in b;
    }
  }

  lemma LeastFirst(a: seq<Snap>, b: seq<Snap>)
    requires a != [] && b != [] && Sorted(a) && Sorted(b) && Within(a, b) && Within(b, a)
    ensures a[0] == b[0]
  {
    assert a[0] in b && b[0] in a;
    var i :| 0 <= i < |b| && b[i] == a[0];
    var j :| 0 <= j < |a| && a[j] == b[0];
    LessTotal(a[0].tunnelKey, b[0].tunnelKey);
  }

  lemma TailWithin(a: seq<Snap>, b: seq<Snap>)
    requires a != [] && b != [] && Sorted(a) && Within(a, b) && a[0] == b[0]
    ensures Within(a[1..], b[1..])
  {
    forall k | 0 <= k < |a| - 1 ensures a[1..][k] in b[1..] {
      LessTotal(a[k + 1].tunnelKey, a[0].tunnelKey);
      assert a[k + 1] in b;
      var p :| 0 <= p < |b| && b[p] == a[k + 1];
      assert b[1..][p - 1] == a[k + 1];
    }
  }

  /** Strictly ascending lists with the same entries are the same list. */
  lemma {:induction false} SameKeysSameOrder(a: seq<Snap>, b: seq<Snap>)
    requires Sorted(a) && Sorted(b) && Within(a, b) && Within(b, a)
    ensures a == b
  {
    WithinEmpty(a, b);
    WithinEmpty(b, a);
    if a != [] && b != [] {
      LeastFirst(a, b);
      TailWithin(a, b);
      TailWithin(b, a);
      SameKeysSameOrder(a[1..], b[1..]);
      assert a == [a[0]] + a[1..] && b == [b[0]] + b[1..];
    }
  }

  // ---------------------------------------------------------------- the server's own keys

  lemma NamespaceTwice(value: string)
    ensures NormalizeNamespace(NormalizeNamespace(value)) == NormalizeNamespace(value)
  {
    TrimSpaceIsTrimmed(value);
    var ns := ToLower(TrimSpace(value));
    TrimSpaceOfTrimmed(ns);
    ToLowerFixed(ns);
    DefaultIsDefault();
  }

  /** A control message's record carries what its key is composed of, so every connect meets the
      step's condition. */
  lemma NewRecFits(direct: bool, namespace: string, subdomain: string, remote: string, now: int, open: bool)
    ensures var rec := NewRec(direct, namespace, subdomain, remote, now, open);
            rec.key == ComposeTunnelKey(direct, rec.namespace, rec.subdomain) && !rec.done && !rec.swept
  {
    NamespaceTwice(namespace);
  }
}
