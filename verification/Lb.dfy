/** The load balancer's manager, updated in place, against the steps of LbState. */
module Lb {
  import opened TunnelKey
  import S = LbState

  /** `ref` is the position of this record among all records of its manager. */
  class TunnelBackend {
    const id: string
    ghost const ref: nat
    var host: string
    var controlPort: string
    var publicPort: string
    var namespace: string
    var dynamic: bool
    var fleetId: string
    var lastSeen: int

    constructor (b: S.Backend, ghost ref: nat)
      ensures Record() == b && this.ref == ref
    {
      id := b.id;
      this.ref := ref;
      host := b.host;
      controlPort := b.controlPort;
      publicPort := b.publicPort;
      namespace := b.namespace;
      dynamic := b.dynamic;
      fleetId := b.fleetId;
      lastSeen := b.lastSeen;
    }

    method Overwrite(b: S.Backend, now: int)
      requires b.id == id
      modifies this
      ensures Record() == b.(dynamic := true, lastSeen := now)
    {
      host := b.host;
      controlPort := b.controlPort;
      publicPort := b.publicPort;
      namespace := b.namespace;
      dynamic := true;
      fleetId := b.fleetId;
      lastSeen := now;
    }

    method Touch(now: int)
      modifies this
      ensures Record() == old(Record()).(lastSeen := now)
    {
      lastSeen := now;
    }

    function Record(): (r: S.Backend)
      reads this
      ensures r.id == id
    {
      S.Backend(id, host, controlPort, publicPort, namespace, dynamic, fleetId, lastSeen)
    }

    /** backendAvailable. */
    predicate Available(cutoff: int)
      reads this
    {
      S.Alive(Record(), cutoff)
    }
  }

  ghost function Refs(bs: seq<TunnelBackend>): (r: seq<nat>)
    ensures |r| == |bs| && forall i | 0 <= i < |r| :: r[i] == bs[i].ref
  {
    seq(|bs|, i requires 0 <= i < |bs| => bs[i].ref)
  }

  ghost function Records(bs: seq<TunnelBackend>): (r: seq<S.Backend>)
    reads bs
    ensures |r| == |bs| && forall i | 0 <= i < |r| :: r[i] == bs[i].Record()
  {
    seq(|bs|, i requires 0 <= i < |bs| reads bs => bs[i].Record())
  }

  /** `bs` are among `objs`, each at its own position. */
  ghost predicate Owned(objs: seq<TunnelBackend>, bs: seq<TunnelBackend>) {
    forall i | 0 <= i < |bs| :: bs[i].ref < |objs| && objs[bs[i].ref] == bs[i]
  }

  lemma OwnedSnoc(objs: seq<TunnelBackend>, bs: seq<TunnelBackend>, b: TunnelBackend)
    requires Owned(objs, bs) && b.ref < |objs| && objs[b.ref] == b
    ensures Owned(objs, bs + [b]) && Refs(bs + [b]) == Refs(bs) + [b.ref]
  {
  }

  ghost function RouteRefs(m: map<string, TunnelBackend>): (r: map<string, nat>)
    ensures r.Keys == m.Keys && forall k | k in m :: r[k] == m[k].ref
  {
    map k | k in m :: m[k].ref
  }

  lemma RouteRefsUpdate(m: map<string, TunnelBackend>, key: string, b: TunnelBackend)
    ensures RouteRefs(m[key := b]) == RouteRefs(m)[key := b.ref]
    ensures RouteRefs(m - {key}) == RouteRefs(m) - {key}
  {
  }

  lemma RecordsSnoc(bs: seq<TunnelBackend>, b: TunnelBackend)
    ensures Records(bs + [b]) == Records(bs) + [b.Record()]
  {
  }

  lemma RefsWithout(objs: seq<TunnelBackend>, bs: seq<TunnelBackend>, i: nat)
    requires i < |bs| && Owned(objs, bs)
    ensures Refs(bs[..i] + bs[i + 1..]) == S.Without(Refs(bs), i) && Owned(objs, bs[..i] + bs[i + 1..])
  {
  }

  /** `r` is `r0` without the entries whose record has one of the ids. */
  ghost predicate Cut(r0: map<string, TunnelBackend>, r: map<string, TunnelBackend>, ids: set<string>) {
    && (forall k :: k in r <==> k in r0 && r0[k].id !in ids)
    && (forall k | k in r :: r[k] == r0[k])
  }

  lemma CutMore(
      r0: map<string, TunnelBackend>, r1: map<string, TunnelBackend>, r2: map<string, TunnelBackend>,
      ids: set<string>, id: string)
    requires Cut(r0, r1, ids) && Cut(r1, r2, {id})
    ensures Cut(r0, r2, ids + {id})
  {
  }

  lemma RoutesFiltered(s: S.State, r0: map<string, TunnelBackend>, r: map<string, TunnelBackend>, ids: set<string>)
    requires S.WF(s) && s.routes == RouteRefs(r0) && forall k | k in r0 :: s.objs[r0[k].ref].id == r0[k].id
    requires Cut(r0, r, ids)
    ensures RouteRefs(r) == S.RoutesWithout(s, ids)
  {
  }

  lemma ExpiredSnoc(objs: seq<S.Backend>, refs: seq<nat>, r: nat, cutoff: int)
    requires S.InRange(objs, refs) && r < |objs|
    ensures S.ExpiredOf(objs, refs + [r], cutoff)
         == S.ExpiredOf(objs, refs, cutoff) + if S.Alive(objs[r], cutoff) then {} else {objs[r].id}
  {
    var both := refs + [r];
    assert both[|refs|] == r && forall i | 0 <= i < |refs| :: both[i] == refs[i];
    var e := S.ExpiredOf(objs, both, cutoff);
    forall id | id in S.ExpiredOf(objs, refs, cutoff) ensures id in e {
      var i :| 0 <= i < |refs| && !S.Alive(objs[refs[i]], cutoff) && objs[refs[i]].id == id;
      assert objs[both[i]].id == id;
    }
    if !S.Alive(objs[r], cutoff) {
      assert objs[both[|refs|]].id in e;
    }
  }

  lemma RefsSnoc(bs: seq<TunnelBackend>, i: nat)
    requires i < |bs|
    ensures Refs(bs[..i + 1]) == Refs(bs[..i]) + [bs[i].ref]
  {
  }

  /** Every record is at its own position, and list and routes hold only known records. */
  ghost predicate Consistent(objs: seq<TunnelBackend>, bs: seq<TunnelBackend>, routes: map<string, TunnelBackend>) {
    && Owned(objs, objs) && (forall i | 0 <= i < |objs| :: objs[i].ref == i)
    && Owned(objs, bs)
    && (forall k | k in routes :: routes[k].ref < |objs| && objs[routes[k].ref] == routes[k])
  }

  lemma ConsistentSnoc(objs: seq<TunnelBackend>, bs: seq<TunnelBackend>, routes: map<string, TunnelBackend>, b: TunnelBackend)
    requires Consistent(objs, bs, routes) && b.ref == |objs|
    ensures Consistent(objs + [b], bs + [b], routes)
    ensures Refs(bs + [b]) == Refs(bs) + [b.ref]
  {
  }

  lemma KeepSnoc(objs: seq<S.Backend>, refs: seq<nat>, r: nat, p: S.Backend -> bool)
    requires S.InRange(objs, refs) && r < |objs|
    ensures S.Keep(objs, refs + [r], p) == S.Keep(objs, refs, p) + if p(objs[r]) then [r] else []
  {
    assert (refs + [r])[..|refs|] == refs;
  }

  lemma FirstIs(objs: seq<S.Backend>, refs: seq<nat>, p: S.Backend -> bool, i: nat)
    requires S.InRange(objs, refs) && i <= |refs|
    requires forall j | 0 <= j < i :: !p(objs[refs[j]])
    requires i < |refs| ==> p(objs[refs[i]])
    ensures S.First(objs, refs, p) == i
  {
  }

  lemma LeastChosen(s: S.State, key: string, cands: seq<nat>, fit: seq<nat>)
    requires S.WF(s) && S.InRange(s.objs, cands) && fit == S.InNamespace(s.objs, cands, key) && fit != []
    ensures S.Choose(s, S.Sticky, key, cands) == (s, S.Some(fit[S.FirstMin(S.Loads(s.objs, fit, s.load))]))
  {
  }

  lemma RoundChosen(s: S.State, key: string, cands: seq<nat>, fit: seq<nat>)
    requires S.WF(s) && S.InRange(s.objs, cands) && fit == S.InNamespace(s.objs, cands, key) && fit != []
    ensures var i := S.RoundRobinIndex(s.rr, |fit|);
            && (i.Some? ==> i.value < |fit|)
            && S.Choose(s, S.RoundRobin, key, cands)
            == (s.(rr := (s.rr + 1) % 0x1_0000_0000_0000_0000), if i.Some? then S.Some(fit[i.value]) else S.None)
  {
    S.RoundRobinInBounds(s.rr, |fit|);
  }

  class LBManager {
    var backends: seq<TunnelBackend>
    var routes: map<string, TunnelBackend>
    var load: map<string, int>
    var rrCounter: nat
    ghost var objs: seq<TunnelBackend>

    ghost predicate Valid()
      reads this
    {
      && Consistent(objs, backends, routes)
      && rrCounter < 0x1_0000_0000_0000_0000
    }

    ghost function Abs(): (s: S.State)
      requires Valid()
      reads this, objs
      ensures S.WF(s)
    {
      S.State(Records(objs), Refs(backends), RouteRefs(routes), load, rrCounter)
    }

    /** newLBManager. */
    constructor (bs: seq<TunnelBackend>)
      requires forall i | 0 <= i < |bs| :: bs[i].ref == i
      ensures Valid() && Abs() == S.Initial(Records(bs))
    {
      backends := bs;
      routes := map[];
      rrCounter := 0;
      objs := bs;
      var l: map<string, int> := map[];
      for i := 0 to |bs|
        invariant forall id :: id in l <==> exists j :: 0 <= j < i && bs[j].id == id
        invariant forall id | id in l :: l[id] == 0
      {
        l := l[bs[i].id := 0];
      }
      load := l;
      new;
      assert load == S.Initial(Records(bs)).load;
      assert Refs(backends) == S.Initial(Records(bs)).backends;
      assert Abs().routes == map[];
    }

    /** backendByID. */
    method BackendByID(id: string, cutoff: int) returns (b: TunnelBackend?)
      requires Valid()
      ensures b != null <==> S.Live(Abs(), id, cutoff)
      ensures b != null ==> b in backends && b.id == id && b.Available(cutoff)
    {
      for i := 0 to |backends|
        invariant forall j | 0 <= j < i :: !(backends[j].id == id && backends[j].Available(cutoff))
      {
        if backends[i].id == id && backends[i].Available(cutoff) {
          assert Abs().objs[Abs().backends[i]] == backends[i].Record();
          return backends[i];
        }
      }
      return null;
    }

    /** routeBackend in subdomain routing. */
    method RouteBackend(key: string, cutoff: int) returns (b: TunnelBackend?)
      requires Valid()
      ensures (if b == null then S.None else S.Some(b.ref)) == S.RouteBackend(Abs(), key, cutoff)
      ensures b != null ==> b.ref < |objs| && objs[b.ref] == b
    {
      if key !in routes {
        return null;
      }
      var live := BackendByID(routes[key].id, cutoff);
      if live == null {
        return null;
      }
      return routes[key];
    }

    /** The backends whose record satisfies `p`, in order. */
    method Filter(bs: seq<TunnelBackend>, p: S.Backend -> bool) returns (kept: seq<TunnelBackend>)
      requires Valid() && Owned(objs, bs)
      ensures Owned(objs, kept)
      ensures S.InRange(Abs().objs, Refs(bs))
      ensures Refs(kept) == S.Keep(Abs().objs, Refs(bs), p)
    {
      kept := [];
      for i := 0 to |bs|
        invariant Owned(objs, kept)
        invariant Refs(kept) == S.Keep(Abs().objs, Refs(bs[..i]), p)
      {
        KeepSnoc(Abs().objs, Refs(bs[..i]), bs[i].ref, p);
        RefsSnoc(bs, i);
        if p(bs[i].Record()) {
          OwnedSnoc(objs, kept, bs[i]);
          kept := kept + [bs[i]];
        }
      }
      assert bs[..|bs|] == bs;
    }

    /** eligibleBackends. */
    method EligibleBackends(bs: seq<TunnelBackend>, cutoff: int) returns (eligible: seq<TunnelBackend>)
      requires Valid() && Owned(objs, bs)
      ensures Owned(objs, eligible)
      ensures S.InRange(Abs().objs, Refs(bs))
      ensures Refs(eligible) == S.Keep(Abs().objs, Refs(bs), (b: S.Backend) => S.Alive(b, cutoff))
    {
      eligible := Filter(bs, (b: S.Backend) => S.Alive(b, cutoff));
    }

    /** The namespace filter of pickBackend. */
    method FilterNamespace(bs: seq<TunnelBackend>, key: string) returns (fit: seq<TunnelBackend>)
      requires Valid() && Owned(objs, bs)
      ensures Owned(objs, fit)
      ensures S.InRange(Abs().objs, Refs(bs)) && Refs(fit) == S.InNamespace(Abs().objs, Refs(bs), key)
    {
      fit := Filter(bs, (b: S.Backend) => NormalizeNamespace(b.namespace) == SplitTunnelKey(key).0);
    }

    /** The position of the first backend whose record satisfies `p`. */
    method Find(p: S.Backend -> bool) returns (i: nat)
      requires Valid()
      ensures i == S.First(Abs().objs, Abs().backends, p) && i <= |backends|
    {
      i := 0;
      while i < |backends|
        invariant i <= |backends|
        invariant forall j | 0 <= j < i :: !p(backends[j].Record())
      {
        if p(backends[i].Record()) {
          break;
        }
        i := i + 1;
      }
      FirstIs(Abs().objs, Abs().backends, p, i);
    }

    /** pickLeastLoaded: the first of the least loaded. */
    method PickLeastLoaded(bs: seq<TunnelBackend>) returns (chosen: TunnelBackend)
      requires Valid() && Owned(objs, bs) && bs != []
      ensures S.InRange(Abs().objs, Refs(bs))
      ensures chosen == bs[S.FirstMin(S.Loads(Abs().objs, Refs(bs), load))]
    {
      var best: TunnelBackend? := null;
      var minLoad := -1;
      ghost var at: nat := 0;
      for i := 0 to |bs|
        invariant best == null <==> i == 0
        invariant at <= i
        invariant best != null ==> at < i && best == bs[at] && minLoad == S.LoadOf(load, bs[at].id)
        invariant forall j | 0 <= j < i :: minLoad <= S.LoadOf(load, bs[j].id)
        invariant forall j | 0 <= j < at :: minLoad < S.LoadOf(load, bs[j].id)
      {
        var l := S.LoadOf(load, bs[i].id);
        if best == null || l < minLoad {
          best, minLoad, at := bs[i], l, i;
        }
      }
      ghost var ls := S.Loads(Abs().objs, Refs(bs), load);
      assert forall j | 0 <= j < |ls| :: ls[j] == S.LoadOf(load, bs[j].id);
      FirstMinIs(ls, at);
      return best;
    }

    /** pickRoundRobin; null where the original's indexing panics. */
    method PickRoundRobin(bs: seq<TunnelBackend>) returns (chosen: TunnelBackend?)
      requires Valid() && bs != []
      modifies this`rrCounter
      ensures Valid() && rrCounter == (old(rrCounter) + 1) % 0x1_0000_0000_0000_0000
      ensures var i := S.RoundRobinIndex(old(rrCounter), |bs|);
              (i.None? ==> chosen == null) && (i.Some? ==> i.value < |bs| && chosen == bs[i.value])
    {
      var c := rrCounter;
      rrCounter := (rrCounter + 1) % 0x1_0000_0000_0000_0000;
      S.RoundRobinInBounds(c, |bs|);
      var i := S.Rem(S.ToInt64(c), |bs|);
      if i < 0 {
        return null;
      }
      return bs[i];
    }

    /** pickBackend, with nothing between its locked sections. */
    method PickBackend(policy: S.Policy, key: string, cutoff: int) returns (b: TunnelBackend?)
      requires Valid()
      modifies this`rrCounter
      ensures Valid()
      ensures (Abs(), if b == null then S.None else S.Some(b.ref)) == S.PickBackend(old(Abs()), policy, key, cutoff)
      ensures b != null ==> b.ref < |objs| && objs[b.ref] == b
    {
      b := RouteBackend(key, cutoff);
      if b != null {
        return;
      }
      var eligible := EligibleBackends(backends, cutoff);
      b := ChooseFrom(policy, key, eligible);
    }

    /** The second half of pickBackend. */
    method ChooseFrom(policy: S.Policy, key: string, eligible: seq<TunnelBackend>) returns (b: TunnelBackend?)
      requires Valid() && Owned(objs, eligible)
      modifies this`rrCounter
      ensures Valid() && S.InRange(old(Abs()).objs, Refs(eligible))
      ensures (Abs(), if b == null then S.None else S.Some(b.ref))
           == S.Choose(old(Abs()), policy, key, Refs(eligible))
      ensures b != null ==> b.ref < |objs| && objs[b.ref] == b
    {
      var fit := FilterNamespace(eligible, key);
      if fit == [] {
        return null;
      }
      assert Refs(fit) != [];
      if policy == S.Sticky {
        b := PickLeastLoaded(fit);
        LeastChosen(Abs(), key, Refs(eligible), Refs(fit));
      } else {
        RoundChosen(Abs(), key, Refs(eligible), Refs(fit));
        b := PickRoundRobin(fit);
      }
    }

    method RegisterRoute(key: string, b: TunnelBackend)
      requires Valid() && b.ref < |objs| && objs[b.ref] == b
      modifies this`routes
      ensures Valid() && Abs() == S.AddRoute(old(Abs()), key, b.ref)
    {
      RouteRefsUpdate(routes, key, b);
      routes := routes[key := b];
    }

    method UnregisterRoute(key: string, b: TunnelBackend)
      requires Valid() && b.ref < |objs| && objs[b.ref] == b
      modifies this`routes
      ensures Valid() && Abs() == S.DropRoute(old(Abs()), key, b.ref)
    {
      if key in routes && routes[key].id == b.id {
        RouteRefsUpdate(routes, key, b);
        routes := routes - {key};
      }
    }

    method IncLoad(id: string)
      requires Valid()
      modifies this`load
      ensures Valid() && Abs() == S.IncLoad(old(Abs()), id)
    {
      load := load[id := S.LoadOf(load, id) + 1];
    }

    method DecLoad(id: string)
      requires Valid()
      modifies this`load
      ensures Valid() && Abs() == S.DecLoad(old(Abs()), id)
    {
      if S.LoadOf(load, id) > 0 {
        load := load[id := load[id] - 1];
      }
    }

    /** The route clean-up of a removal: every entry whose record has this id. */
    method DeleteRoutesOf(id: string)
      requires Valid()
      modifies this`routes
      ensures Valid() && Cut(old(routes), routes, {id})
    {
      var todo := routes.Keys;
      while todo != {}
        invariant Valid()
        invariant forall k | k in todo :: k in routes
        invariant forall k :: k in routes <==> k in old(routes) && (k in todo || old(routes)[k].id != id)
        invariant forall k | k in routes :: routes[k] == old(routes)[k]
        decreases |todo|
      {
        var k :| k in todo;
        if routes[k].id == id {
          routes := routes - {k};
        }
        todo := todo - {k};
      }
    }

    /** registerDynamicBackend for an accepted request; `now` is the time under the lock. */
    method RegisterDynamicBackend(b: S.Backend, now: int) returns (stored: TunnelBackend)
      requires Valid()
      modifies this, objs
      ensures Valid() && old(objs) <= objs && fresh(objs[|old(objs)|..])
      ensures Abs() == S.Register(old(Abs()), b, now)
      ensures stored in backends && stored.id == b.id
    {
      ghost var before := Abs();
      var i := Find((o: S.Backend) => o.id == b.id);
      if i < |backends| {
        OverwriteAt(i, b, now);
        return backends[i];
      }
      stored := new TunnelBackend(b.(dynamic := true), |objs|);
      assert Abs() == before;
      Append(stored);
    }

    method OverwriteAt(i: nat, b: S.Backend, now: int)
      requires Valid() && i < |backends| && backends[i].id == b.id
      modifies backends[i]
      ensures Valid()
      ensures Abs() == old(Abs()).(objs := old(Abs()).objs[old(Abs()).backends[i] := b.(dynamic := true, lastSeen := now)])
    {
      ghost var before := Abs();
      backends[i].Overwrite(b, now);
      assert Abs().objs == before.objs[backends[i].ref := b.(dynamic := true, lastSeen := now)];
    }

    method Append(stored: TunnelBackend)
      requires Valid() && stored.ref == |objs|
      modifies this`backends, this`objs, this`load
      ensures Valid() && objs == old(objs) + [stored] && backends == old(backends) + [stored]
      ensures Abs() == old(Abs()).(objs := old(Abs()).objs + [stored.Record()],
                                   backends := old(Abs()).backends + [|old(objs)|],
                                   load := if stored.id in old(load) then old(load) else old(load)[stored.id := 0])
    {
      RecordsSnoc(objs, stored);
      ConsistentSnoc(objs, backends, routes, stored);
      objs := objs + [stored];
      backends := backends + [stored];
      if stored.id !in load {
        load := load[stored.id := 0];
      }
    }

    method RemoveAt(i: nat, id: string)
      requires Valid() && i < |backends|
      modifies this
      ensures Valid() && objs == old(objs)
      ensures Abs() == old(Abs()).(backends := S.Without(old(Abs()).backends, i), load := old(load) - {id},
                                   routes := S.RoutesWithout(old(Abs()), {id}))
    {
      ghost var before := Abs();
      RefsWithout(objs, backends, i);
      backends := backends[..i] + backends[i + 1..];
      load := load - {id};
      DeleteRoutesOf(id);
      RoutesFiltered(before, old(routes), routes, {id});
    }

    /** deregisterDynamicBackend: splices the first dynamic record of that id out of the list. */
    method DeregisterDynamicBackend(id: string) returns (found: bool)
      requires Valid()
      modifies this
      ensures Valid() && objs == old(objs)
      ensures Abs() == S.Deregister(old(Abs()), id)
      ensures found <==> S.DynamicAt(old(Abs()), id) < |old(backends)|
    {
      var i := Find((o: S.Backend) => o.id == id && o.dynamic);
      found := i < |backends|;
      if found {
        RemoveAt(i, id);
      }
    }

    /** touchDynamicBackend. */
    method TouchDynamicBackend(id: string, now: int) returns (found: bool)
      requires Valid()
      modifies objs
      ensures Valid() && Abs() == S.Touch(old(Abs()), id, now)
      ensures found <==> S.DynamicAt(old(Abs()), id) < |backends|
    {
      ghost var before := Abs();
      var i := Find((o: S.Backend) => o.id == id && o.dynamic);
      found := i < |backends|;
      if found {
        backends[i].Touch(now);
        assert Abs().objs == before.objs[backends[i].ref := before.objs[backends[i].ref].(lastSeen := now)];
      }
    }

    method Forget(id: string, ghost load0: map<string, int>, ghost routes0: map<string, TunnelBackend>, ghost gone: set<string>)
      requires Valid() && load == load0 - gone && Cut(routes0, routes, gone)
      modifies this`load, this`routes
      ensures Valid() && load == load0 - (gone + {id}) && Cut(routes0, routes, gone + {id})
    {
      ghost var was := routes;
      load := load - {id};
      DeleteRoutesOf(id);
      CutMore(routes0, was, routes, gone, id);
    }

    /** Where the compaction stands after `i` slots. */
    ghost predicate Pruned(
        before: seq<TunnelBackend>, load0: map<string, int>, routes0: map<string, TunnelBackend>,
        kept: nat, i: nat, cutoff: int)
      requires Valid()
      reads this, objs
    {
      && Compacted(objs, Records(objs), before, backends, kept, i, cutoff)
      && var gone := S.ExpiredOf(Records(objs), Refs(before[..i]), cutoff);
         load == load0 - gone && Cut(routes0, routes, gone)
    }

    lemma PrunedStart(cutoff: int)
      requires Valid()
      ensures Pruned(backends, load, routes, 0, 0, cutoff)
    {
      CompactStart(objs, Records(objs), backends, cutoff);
    }

    lemma PrunedEnd(
        before: seq<TunnelBackend>, load0: map<string, int>, routes0: map<string, TunnelBackend>,
        kept: nat, cutoff: int)
      requires Valid() && Pruned(before, load0, routes0, kept, |backends|, cutoff)
      ensures kept <= |backends| && S.InRange(Records(objs), Refs(before))
      ensures Refs(backends[..kept]) == S.Keep(Records(objs), Refs(before), (b: S.Backend) => S.Alive(b, cutoff))
      ensures var gone := S.ExpiredOf(Records(objs), Refs(before), cutoff);
              load == load0 - gone && Cut(routes0, routes, gone)
    {
      assert before[..|backends|] == before;
    }

    method MoveDown(
        ghost before: seq<TunnelBackend>, ghost load0: map<string, int>, ghost routes0: map<string, TunnelBackend>,
        kept: nat, i: nat, cutoff: int)
      requires Valid() && Pruned(before, load0, routes0, kept, i, cutoff) && i < |backends|
      requires backends[i].Available(cutoff)
      modifies this`backends
      ensures Valid() && Pruned(before, load0, routes0, kept + 1, i + 1, cutoff) && |backends| == old(|backends|)
    {
      ghost var recs := Records(objs);
      assert recs[backends[i].ref] == backends[i].Record();
      CompactStep(objs, recs, before, backends, kept, i, cutoff);
      CompactKeep(objs, recs, before, backends, kept, i, cutoff);
      backends := backends[kept := backends[i]];
    }

    method Drop(
        ghost before: seq<TunnelBackend>, ghost load0: map<string, int>, ghost routes0: map<string, TunnelBackend>,
        kept: nat, i: nat, cutoff: int)
      requires Valid() && Pruned(before, load0, routes0, kept, i, cutoff) && i < |backends|
      requires !backends[i].Available(cutoff)
      modifies this`load, this`routes
      ensures Valid() && Pruned(before, load0, routes0, kept, i + 1, cutoff)
    {
      ghost var recs := Records(objs);
      assert recs[backends[i].ref] == backends[i].Record();
      CompactStep(objs, recs, before, backends, kept, i, cutoff);
      CompactDrop(objs, recs, before, backends, kept, i, cutoff);
      Forget(backends[i].id, load0, routes0, S.ExpiredOf(recs, Refs(before[..i]), cutoff));
    }

    method CompactOne(
        ghost before: seq<TunnelBackend>, ghost load0: map<string, int>, ghost routes0: map<string, TunnelBackend>,
        kept: nat, i: nat, cutoff: int) returns (kept': nat)
      requires Valid() && Pruned(before, load0, routes0, kept, i, cutoff) && i < |backends|
      modifies this`backends, this`load, this`routes
      ensures Valid() && Pruned(before, load0, routes0, kept', i + 1, cutoff) && |backends| == old(|backends|)
      ensures Records(objs) == old(Records(objs))
    {
      kept' := kept;
      if backends[i].Available(cutoff) {
        MoveDown(before, load0, routes0, kept, i, cutoff);
        kept' := kept + 1;
      } else {
        Drop(before, load0, routes0, kept, i, cutoff);
      }
    }

    /** The compaction loop: each slot is read before it is overwritten. */
    method Compact(cutoff: int) returns (kept: nat)
      requires Valid()
      modifies this`backends, this`load, this`routes
      ensures Valid() && Pruned(old(backends), old(load), old(routes), kept, |backends|, cutoff)
      ensures Records(objs) == old(Records(objs))
    {
      ghost var before := backends;
      kept := 0;
      var i := 0;
      PrunedStart(cutoff);
      while i < |backends|
        invariant Valid() && Records(objs) == old(Records(objs))
        invariant Pruned(before, old(load), old(routes), kept, i, cutoff)
      {
        kept := CompactOne(before, old(load), old(routes), kept, i, cutoff);
        i := i + 1;
      }
    }

    /** The whole pass, before the list is cut. */
    method CompactAll(cutoff: int) returns (kept: nat)
      requires Valid()
      modifies this`backends, this`load, this`routes
      ensures Valid() && kept <= |backends|
      ensures Refs(backends[..kept]) == S.Eligible(old(Abs()), cutoff)
      ensures Abs() == S.Prune(old(Abs()), cutoff).(backends := Refs(backends))
    {
      ghost var before := Abs();
      assert forall k | k in routes :: before.objs[routes[k].ref].id == routes[k].id;
      kept := Compact(cutoff);
      PrunedEnd(old(backends), old(load), old(routes), kept, cutoff);
      RoutesFiltered(before, old(routes), routes, S.ExpiredIds(before, cutoff));
    }

    method CutTo(kept: nat)
      requires Valid() && kept <= |backends|
      modifies this`backends
      ensures Valid() && Abs() == old(Abs()).(backends := old(Refs(backends[..kept])))
    {
      backends := backends[..kept];
    }

    /** pruneStaleBackends: compacts the list in place and cuts it to what was kept. */
    method PruneStaleBackends(cutoff: int)
      requires Valid()
      modifies this
      ensures Valid() && objs == old(objs)
      ensures Abs() == S.Prune(old(Abs()), cutoff)
    {
      var kept := CompactAll(cutoff);
      CutTo(kept);
    }
  }

  /** `recs` are the records of `objs`; the first `i` of `before` have been read, and those still
      alive moved to the first `kept` slots. */
  ghost predicate Compacted(
      objs: seq<TunnelBackend>, recs: seq<S.Backend>, before: seq<TunnelBackend>, now: seq<TunnelBackend>,
      kept: nat, i: nat, cutoff: int) {
    && |recs| == |objs| && Owned(objs, before) && Owned(objs, now)
    && kept <= i <= |before| == |now|
    && now[i..] == before[i..]
    && S.InRange(recs, Refs(before[..i]))
    && Refs(now[..kept]) == S.Keep(recs, Refs(before[..i]), (b: S.Backend) => S.Alive(b, cutoff))
  }

  lemma CompactStart(objs: seq<TunnelBackend>, recs: seq<S.Backend>, before: seq<TunnelBackend>, cutoff: int)
    requires |recs| == |objs| && Owned(objs, before)
    ensures Compacted(objs, recs, before, before, 0, 0, cutoff)
    ensures S.ExpiredOf(recs, Refs(before[..0]), cutoff) == {}
  {
  }

  lemma CompactStep(
      objs: seq<TunnelBackend>, recs: seq<S.Backend>, before: seq<TunnelBackend>, now: seq<TunnelBackend>,
      kept: nat, i: nat, cutoff: int)
    requires Compacted(objs, recs, before, now, kept, i, cutoff) && i < |now|
    ensures now[i] == before[i] && S.InRange(recs, Refs(before[..i + 1]))
    ensures S.ExpiredOf(recs, Refs(before[..i + 1]), cutoff)
         == S.ExpiredOf(recs, Refs(before[..i]), cutoff)
            + if S.Alive(recs[now[i].ref], cutoff) then {} else {recs[now[i].ref].id}
  {
    assert now[i] == now[i..][0] == before[i..][0] == before[i];
    RefsSnoc(before, i);
    ExpiredSnoc(recs, Refs(before[..i]), before[i].ref, cutoff);
  }

  lemma CompactKeep(
      objs: seq<TunnelBackend>, recs: seq<S.Backend>, before: seq<TunnelBackend>, now: seq<TunnelBackend>,
      kept: nat, i: nat, cutoff: int)
    requires Compacted(objs, recs, before, now, kept, i, cutoff) && i < |now|
    requires S.Alive(recs[now[i].ref], cutoff)
    ensures Compacted(objs, recs, before, now[kept := now[i]], kept + 1, i + 1, cutoff)
  {
    assert now[i] == now[i..][0] == before[i..][0] == before[i];
    RefsSnoc(before, i);
    KeepSnoc(recs, Refs(before[..i]), before[i].ref, (b: S.Backend) => S.Alive(b, cutoff));
    var now' := now[kept := now[i]];
    assert now'[..kept + 1] == now[..kept] + [now[i]];
    assert Refs(now[..kept] + [now[i]]) == Refs(now[..kept]) + [now[i].ref];
    assert now'[i + 1..] == before[i + 1..];
  }

  lemma CompactDrop(
      objs: seq<TunnelBackend>, recs: seq<S.Backend>, before: seq<TunnelBackend>, now: seq<TunnelBackend>,
      kept: nat, i: nat, cutoff: int)
    requires Compacted(objs, recs, before, now, kept, i, cutoff) && i < |now|
    requires !S.Alive(recs[now[i].ref], cutoff)
    ensures Compacted(objs, recs, before, now, kept, i + 1, cutoff)
  {
    assert now[i] == now[i..][0] == before[i..][0] == before[i];
    RefsSnoc(before, i);
    KeepSnoc(recs, Refs(before[..i]), before[i].ref, (b: S.Backend) => S.Alive(b, cutoff));
    assert now[i + 1..] == before[i + 1..];
  }

  lemma FirstMinIs(xs: seq<int>, at: nat)
    requires at < |xs| && (forall j | 0 <= j < |xs| :: xs[at] <= xs[j]) && (forall j | 0 <= j < at :: xs[at] < xs[j])
    ensures S.FirstMin(xs) == at
  {
  }
}
