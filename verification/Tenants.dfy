/** Which backend a client is given: one of its own namespace, and what keeps it so over a run. */
module Tenants {
  import opened Text
  import opened TunnelKey
  import opened LbState
  import opened LbRuns

  // ---------------------------------------------------------------- a fresh pick

  /** An unexpired backend of the namespace. */
  predicate Serves(b: Backend, ns: string, cutoff: int) {
    Alive(b, cutoff) && NormalizeNamespace(b.namespace) == ns
  }

  /** The positions in the list at which an unexpired backend of the namespace stands. */
  function ServedAt(s: State, ns: string, cutoff: int): set<nat>
    requires WF(s)
  {
    set i | 0 <= i < |s.backends| && Serves(s.objs[s.backends[i]], ns, cutoff)
  }

  function KeptAt(objs: seq<Backend>, refs: seq<nat>, p: Backend -> bool): set<nat>
    requires InRange(objs, refs)
  {
    set i | 0 <= i < |refs| && p(objs[refs[i]])
  }

  lemma {:induction false} KeptCount(objs: seq<Backend>, refs: seq<nat>, p: Backend -> bool)
    requires InRange(objs, refs)
    ensures |Keep(objs, refs, p)| == |KeptAt(objs, refs, p)|
  {
    if refs != [] {
      var n := |refs| - 1;
      KeptCount(objs, refs[..n], p);
      assert KeptAt(objs, refs, p) == KeptAt(objs, refs[..n], p) + if p(objs[refs[n]]) then {n} else {};
      assert n !in KeptAt(objs, refs[..n], p);
    }
  }

  /** Filtering twice. */
  lemma {:induction false} KeepAnd(objs: seq<Backend>, refs: seq<nat>, p: Backend -> bool, q: Backend -> bool, both: Backend -> bool)
    requires InRange(objs, refs) && forall b :: both(b) <==> p(b) && q(b)
    ensures Keep(objs, Keep(objs, refs, p), q) == Keep(objs, refs, both)
  {
    if refs != [] {
      var n := |refs| - 1;
      KeepAnd(objs, refs[..n], p, q, both);
      var r := Keep(objs, refs[..n], p);
      if p(objs[refs[n]]) {
        assert (r + [refs[n]])[..|r|] == r;
      }
    }
  }

  /** Who fits: the unexpired listed backends of the key's namespace, as many as there are. */
  lemma FitIs(s: State, key: string, cutoff: int)
    requires WF(s)
    ensures var fit := InNamespace(s.objs, Eligible(s, cutoff), key);
            var ns := SplitTunnelKey(key).0;
            && |fit| == |ServedAt(s, ns, cutoff)|
            && forall r :: r in fit <==> r in s.backends && Serves(s.objs[r], ns, cutoff)
  {
    var ns := SplitTunnelKey(key).0;
    var both := (b: Backend) => Alive(b, cutoff) && NormalizeNamespace(b.namespace) == ns;
    KeepAnd(s.objs, s.backends, (b: Backend) => Alive(b, cutoff),
            (b: Backend) => NormalizeNamespace(b.namespace) == SplitTunnelKey(key).0, both);
    KeptCount(s.objs, s.backends, both);
    assert KeptAt(s.objs, s.backends, both) == ServedAt(s, ns, cutoff);
  }

  /** The round-robin counter, read as signed, has a negative remainder by `n`. */
  predicate OutOfRange(rr: nat, n: nat)
    requires n > 0
  {
    rr >= 0x8000_0000_0000_0000 && (0x1_0000_0000_0000_0000 - rr) % n != 0
  }

  lemma FreshIs(s: State, policy: Policy, fit: seq<nat>)
    requires WF(s) && InRange(s.objs, fit)
    ensures var r := FreshChoice(s, policy, fit, s.load);
            && (r.None? <==> fit == [] || (policy == RoundRobin && OutOfRange(s.rr, |fit|)))
            && (r.Some? ==> r.value in fit)
            && (r.Some? && policy == Sticky ==>
                  forall i | 0 <= i < |fit| :: LoadOf(s.load, s.objs[r.value].id) <= LoadOf(s.load, s.objs[fit[i]].id))
  {
    if fit != [] {
      RoundRobinInBounds(s.rr, |fit|);
      if policy == Sticky {
        var ls := Loads(s.objs, fit, s.load);
        assert ls[FirstMin(ls)] == LoadOf(s.load, s.objs[fit[FirstMin(ls)]].id);
      }
    }
  }

  /** A client without a route is given a registered, unexpired backend of its own namespace, with the
      least load when that is the policy. It is given none exactly when there is no such backend, or
      the round-robin index is out of range. */
  lemma FreshPick(s: State, policy: Policy, namespace: string, subdomain: string, cutoff: int)
    requires WF(s) && ValidNamespace(namespace) && ValidLabel(subdomain)
    requires RouteBackend(s, ComposeTunnelKey(false, namespace, subdomain), cutoff) == None
    ensures var ns := NormalizeNamespace(namespace);
            var r := PickBackend(s, policy, ComposeTunnelKey(false, namespace, subdomain), cutoff).1;
            var n := |ServedAt(s, ns, cutoff)|;
            && (r.None? <==> n == 0 || (policy == RoundRobin && OutOfRange(s.rr, n)))
            && (r.Some? ==> r.value in s.backends && Serves(s.objs[r.value], ns, cutoff))
            && (r.Some? && policy == Sticky ==>
                  forall q | q in s.backends && Serves(s.objs[q], ns, cutoff) ::
                    LoadOf(s.load, s.objs[r.value].id) <= LoadOf(s.load, s.objs[q].id))
  {
    var key := ComposeTunnelKey(false, namespace, subdomain);
    var fit := InNamespace(s.objs, Eligible(s, cutoff), key);
    SplitUndoesCompose(namespace, subdomain);
    FitIs(s, key, cutoff);
    PickIs(s, policy, key, cutoff);
    FreshIs(s, policy, fit);
    forall q | q in s.backends && Serves(s.objs[q], NormalizeNamespace(namespace), cutoff)
      ensures exists i :: 0 <= i < |fit| && fit[i] == q
    {
      assert q in fit;
    }
  }

  // ---------------------------------------------------------------- over a run

  /** The backend is of the key's namespace. */
  predicate OfKey(b: Backend, key: string) {
    NormalizeNamespace(b.namespace) == SplitTunnelKey(key).0
  }

  predicate PairsOfKey(objs: seq<Backend>, pairs: multiset<(string, nat)>) {
    forall p | p in pairs :: p.1 < |objs| && OfKey(objs[p.1], p.0)
  }

  predicate RoutesOfKey(objs: seq<Backend>, routes: map<string, nat>) {
    forall k | k in routes :: routes[k] < |objs| && OfKey(objs[routes[k]], k)
  }

  /** Every client on its way and every route leads to its own namespace. */
  ghost predicate Apart(x: Sys)
    requires Sane(x)
  {
    PairsOfKey(x.s.objs, x.chosen) && PairsOfKey(x.s.objs, x.routed) && RoutesOfKey(x.s.objs, x.s.routes)
  }

  lemma ApartFrom(
      y: Sys, objs: seq<Backend>, chosen: multiset<(string, nat)>, routed: multiset<(string, nat)>, routes: map<string, nat>)
    requires Sane(y) && y.s.objs == objs && y.chosen == chosen && y.routed == routed && y.s.routes == routes
    requires PairsOfKey(objs, chosen) && PairsOfKey(objs, routed) && RoutesOfKey(objs, routes)
    ensures Apart(y)
  {
  }

  lemma PairsFewer(objs: seq<Backend>, pairs: multiset<(string, nat)>, fewer: multiset<(string, nat)>)
    requires PairsOfKey(objs, pairs) && fewer <= pairs
    ensures PairsOfKey(objs, fewer)
  {
    forall p | p in fewer ensures p.1 < |objs| && OfKey(objs[p.1], p.0) {
      assert p in pairs;
    }
  }

  lemma PairsAnd(objs: seq<Backend>, pairs: multiset<(string, nat)>, key: string, r: nat)
    requires PairsOfKey(objs, pairs) && r < |objs| && OfKey(objs[r], key)
    ensures PairsOfKey(objs, pairs + multiset{(key, r)})
  {
    forall p | p in pairs + multiset{(key, r)} ensures p.1 < |objs| && OfKey(objs[p.1], p.0) {
      assert p in pairs || p == (key, r);
    }
  }

  lemma RoutesAnd(objs: seq<Backend>, routes: map<string, nat>, key: string, r: nat)
    requires RoutesOfKey(objs, routes) && r < |objs| && OfKey(objs[r], key)
    ensures RoutesOfKey(objs, routes[key := r])
  {
  }

  lemma RoutesFewer(objs: seq<Backend>, routes: map<string, nat>, fewer: map<string, nat>)
    requires RoutesOfKey(objs, routes) && forall k | k in fewer :: k in routes && fewer[k] == routes[k]
    ensures RoutesOfKey(objs, fewer)
  {
  }

  /** Some client or route refers to the record. */
  ghost predicate InUse(x: Sys, r: nat)
    requires Sane(x)
  {
    (exists p :: p in x.chosen && p.1 == r) || (exists p :: p in x.routed && p.1 == r) || r in x.s.routes.Values
  }

  /** The step registers the id of a record in use again, under another namespace. */
  ghost predicate Moves(x: Sys, st: Step)
    requires Sane(x)
  {
    st.Joins? &&
    exists i :: 0 <= i < |x.s.backends| && x.s.objs[x.s.backends[i]].id == st.b.id
                && (forall j | 0 <= j < i :: x.s.objs[x.s.backends[j]].id != st.b.id)
                && NormalizeNamespace(x.s.objs[x.s.backends[i]].namespace) != NormalizeNamespace(st.b.namespace)
                && InUse(x, x.s.backends[i])
  }

  /** Records keep their namespaces, and nothing new is referred to. */
  lemma ApartKept(x: Sys, y: Sys)
    requires Sane(x) && Sane(y) && Apart(x) && |x.s.objs| <= |y.s.objs|
    requires forall r | 0 <= r < |x.s.objs| :: y.s.objs[r].namespace == x.s.objs[r].namespace
    requires (forall p | p in y.chosen :: p in x.chosen) && (forall p | p in y.routed :: p in x.routed)
    requires forall k | k in y.s.routes :: k in x.s.routes && y.s.routes[k] == x.s.routes[k]
    ensures Apart(y)
  {
  }

  /** Only record `r` changed. */
  ghost predicate Rewritten(x: Sys, y: Sys, r: nat)
    requires Sane(x) && Sane(y)
  {
    && r < |x.s.objs| && |y.s.objs| == |x.s.objs|
    && (forall q | 0 <= q < |x.s.objs| && q != r :: y.s.objs[q] == x.s.objs[q])
    && y.chosen == x.chosen && y.routed == x.routed && y.s.routes == x.s.routes
  }

  lemma UsedMoves(x: Sys, y: Sys, r: nat)
    requires Sane(x) && Sane(y) && Apart(x) && Rewritten(x, y, r) && InUse(x, r) && Apart(y)
    ensures NormalizeNamespace(y.s.objs[r].namespace) == NormalizeNamespace(x.s.objs[r].namespace)
  {
    if p :| p in x.chosen && p.1 == r {
      assert OfKey(y.s.objs[p.1], p.0) && OfKey(x.s.objs[p.1], p.0);
    } else if p :| p in x.routed && p.1 == r {
      assert OfKey(y.s.objs[p.1], p.0) && OfKey(x.s.objs[p.1], p.0);
    } else {
      var k :| k in x.s.routes && x.s.routes[k] == r;
      assert OfKey(y.s.objs[y.s.routes[k]], k) && OfKey(x.s.objs[x.s.routes[k]], k);
    }
  }

  lemma RewrittenStays(x: Sys, y: Sys, r: nat)
    requires Sane(x) && Sane(y) && Apart(x) && Rewritten(x, y, r)
    requires !InUse(x, r) || NormalizeNamespace(y.s.objs[r].namespace) == NormalizeNamespace(x.s.objs[r].namespace)
    ensures Apart(y)
  {
    forall p | p in x.chosen ensures OfKey(y.s.objs[p.1], p.0) {
      assert p.1 == r ==> InUse(x, r);
      assert OfKey(x.s.objs[p.1], p.0);
    }
    forall p | p in x.routed ensures OfKey(y.s.objs[p.1], p.0) {
      assert p.1 == r ==> InUse(x, r);
      assert OfKey(x.s.objs[p.1], p.0);
    }
    forall k | k in x.s.routes ensures OfKey(y.s.objs[y.s.routes[k]], k) {
      assert x.s.routes[k] in x.s.routes.Values;
      assert OfKey(x.s.objs[x.s.routes[k]], k);
    }
  }

  /** One record's namespace changes: what refers to it is affected, the rest is not. */
  lemma OneMoves(x: Sys, y: Sys, r: nat)
    requires Sane(x) && Sane(y) && Apart(x) && Rewritten(x, y, r)
    ensures Apart(y) <==>
              !InUse(x, r) || NormalizeNamespace(y.s.objs[r].namespace) == NormalizeNamespace(x.s.objs[r].namespace)
  {
    if Apart(y) && InUse(x, r) {
      UsedMoves(x, y, r);
    }
    if !InUse(x, r) || NormalizeNamespace(y.s.objs[r].namespace) == NormalizeNamespace(x.s.objs[r].namespace) {
      RewrittenStays(x, y, r);
    }
  }

  lemma MovesAt(x: Sys, b: Backend, now: int)
    requires Sane(x)
    ensures var i := RegisterAt(x.s, b);
            Moves(x, Joins(b, now)) <==>
              && i < |x.s.backends| && InUse(x, x.s.backends[i])
              && NormalizeNamespace(x.s.objs[x.s.backends[i]].namespace) != NormalizeNamespace(b.namespace)
  {
  }

  lemma JoinsApart(x: Sys, policy: Policy, b: Backend, now: int)
    requires Sane(x) && Apart(x) && Sane(Next(x, policy, Joins(b, now)))
    ensures Apart(Next(x, policy, Joins(b, now))) <==> !Moves(x, Joins(b, now))
  {
    var i := RegisterAt(x.s, b);
    var y := Next(x, policy, Joins(b, now));
    MovesAt(x, b, now);
    if i < |x.s.backends| {
      OneMoves(x, y, x.s.backends[i]);
    } else {
      ApartKept(x, y);
    }
  }

  lemma RouteOfKey(x: Sys, key: string, cutoff: int)
    requires Sane(x) && Apart(x) && RouteBackend(x.s, key, cutoff).Some?
    ensures var r := RouteBackend(x.s, key, cutoff).value; r < |x.s.objs| && OfKey(x.s.objs[r], key)
  {
    assert key in x.s.routes && OfKey(x.s.objs[x.s.routes[key]], key);
  }

  lemma NextAsksRouted(x: Sys, policy: Policy, key: string, cutoff: int, r: nat)
    requires Sane(x) && RouteBackend(x.s, key, cutoff) == Some(r)
    ensures Next(x, policy, Asks(key, cutoff)) == x.(chosen := x.chosen + multiset{(key, r)})
  {
  }

  lemma AsksApart(x: Sys, policy: Policy, key: string, cutoff: int)
    requires Sane(x) && Apart(x) && Sane(Next(x, policy, Asks(key, cutoff)))
    ensures Apart(Next(x, policy, Asks(key, cutoff)))
  {
    var r := RouteBackend(x.s, key, cutoff);
    if r.Some? {
      RouteOfKey(x, key, cutoff);
      PairsAnd(x.s.objs, x.chosen, key, r.value);
      NextAsksRouted(x, policy, key, cutoff, r.value);
      ApartFrom(Next(x, policy, Asks(key, cutoff)), x.s.objs, x.chosen + multiset{(key, r.value)}, x.routed, x.s.routes);
    } else {
      NextAsks(x, policy, key, cutoff, Eligible(x.s, cutoff));
      ApartFrom(Next(x, policy, Asks(key, cutoff)), x.s.objs, x.chosen, x.routed, x.s.routes);
    }
  }

  lemma PicksApart(x: Sys, policy: Policy, key: string, cands: seq<nat>)
    requires Sane(x) && Apart(x) && (key, cands) in x.picking && Sane(Next(x, policy, Picks(key, cands)))
    ensures Apart(Next(x, policy, Picks(key, cands)))
  {
    assert InRange(x.s.objs, (key, cands).1);
    NextPicks(x, policy, key, cands);
    ChosenFits(x.s, policy, key, cands);
  }

  lemma ChosenFits(s: State, policy: Policy, key: string, cands: seq<nat>)
    requires WF(s) && InRange(s.objs, cands)
    ensures var c := Choose(s, policy, key, cands); c.1.Some? ==> c.1.value < |s.objs| && OfKey(s.objs[c.1.value], key)
  {
  }

  lemma NextRoutes(x: Sys, policy: Policy, key: string, r: nat)
    requires Sane(x) && (key, r) in x.chosen
    ensures Next(x, policy, Routes(key, r)) ==
            x.(s := AddRoute(x.s, key, r), chosen := x.chosen - multiset{(key, r)}, routed := x.routed + multiset{(key, r)})
  {
  }

  lemma NextFails(x: Sys, policy: Policy, key: string, r: nat)
    requires Sane(x) && (key, r) in x.routed
    ensures r < |x.s.objs|
    ensures Next(x, policy, Fails(key, r)) == x.(s := DropRoute(x.s, key, r), routed := x.routed - multiset{(key, r)})
  {
    assert (key, r).1 < |x.s.objs|;
  }

  lemma NextStarts(x: Sys, policy: Policy, key: string, r: nat)
    requires Sane(x) && (key, r) in x.routed
    ensures var y := Next(x, policy, Starts(key, r));
            && y.s.objs == x.s.objs && y.s.routes == x.s.routes && y.chosen == x.chosen
            && y.routed == x.routed - multiset{(key, r)}
  {
    assert (key, r).1 < |x.s.objs|;
  }

  lemma ChosenOfKey(x: Sys, key: string, r: nat)
    requires Sane(x) && Apart(x) && (key, r) in x.chosen
    ensures r < |x.s.objs| && OfKey(x.s.objs[r], key)
  {
    assert (key, r).1 < |x.s.objs| && OfKey(x.s.objs[(key, r).1], (key, r).0);
  }

  lemma RoutesApart(x: Sys, policy: Policy, key: string, r: nat)
    requires Sane(x) && Apart(x) && (key, r) in x.chosen && Sane(Next(x, policy, Routes(key, r)))
    ensures Apart(Next(x, policy, Routes(key, r)))
  {
    var chosen, routed := x.chosen - multiset{(key, r)}, x.routed + multiset{(key, r)};
    ChosenOfKey(x, key, r);
    NextRoutes(x, policy, key, r);
    PairsFewer(x.s.objs, x.chosen, chosen);
    PairsAnd(x.s.objs, x.routed, key, r);
    RoutesAnd(x.s.objs, x.s.routes, key, r);
    ApartFrom(Next(x, policy, Routes(key, r)), x.s.objs, chosen, routed, x.s.routes[key := r]);
  }

  lemma LeavesApart(x: Sys, policy: Policy, id: string)
    requires Sane(x) && Apart(x) && Sane(Next(x, policy, Leaves(id)))
    ensures Apart(Next(x, policy, Leaves(id)))
  {
    ApartKept(x, Next(x, policy, Leaves(id)));
  }

  lemma BeatsApart(x: Sys, policy: Policy, id: string, now: int)
    requires Sane(x) && Apart(x) && Sane(Next(x, policy, Beats(id, now)))
    ensures Apart(Next(x, policy, Beats(id, now)))
  {
    ApartKept(x, Next(x, policy, Beats(id, now)));
  }

  lemma PrunesApart(x: Sys, policy: Policy, cutoff: int)
    requires Sane(x) && Apart(x) && Sane(Next(x, policy, Prunes(cutoff)))
    ensures Apart(Next(x, policy, Prunes(cutoff)))
  {
    ApartKept(x, Next(x, policy, Prunes(cutoff)));
  }

  lemma FailsApart(x: Sys, policy: Policy, key: string, r: nat)
    requires Sane(x) && Apart(x) && (key, r) in x.routed && Sane(Next(x, policy, Fails(key, r)))
    ensures Apart(Next(x, policy, Fails(key, r)))
  {
    var routed := x.routed - multiset{(key, r)};
    NextFails(x, policy, key, r);
    var routes := DropRoute(x.s, key, r).routes;
    PairsFewer(x.s.objs, x.routed, routed);
    RoutesFewer(x.s.objs, x.s.routes, routes);
    ApartFrom(Next(x, policy, Fails(key, r)), x.s.objs, x.chosen, routed, routes);
  }

  lemma StartsApart(x: Sys, policy: Policy, key: string, r: nat)
    requires Sane(x) && Apart(x) && (key, r) in x.routed && Sane(Next(x, policy, Starts(key, r)))
    ensures Apart(Next(x, policy, Starts(key, r)))
  {
    var routed := x.routed - multiset{(key, r)};
    NextStarts(x, policy, key, r);
    PairsFewer(x.s.objs, x.routed, routed);
    ApartFrom(Next(x, policy, Starts(key, r)), x.s.objs, x.chosen, routed, x.s.routes);
  }

  lemma EndsApart(x: Sys, policy: Policy, id: string)
    requires Sane(x) && Apart(x) && id in x.active && Sane(Next(x, policy, Ends(id)))
    ensures Apart(Next(x, policy, Ends(id)))
  {
    ApartKept(x, Next(x, policy, Ends(id)));
  }

  lemma OtherKeepsApart(x: Sys, policy: Policy, st: Step)
    requires Sane(x) && Apart(x) && Enabled(x, st) && Sane(Next(x, policy, st)) && !st.Joins?
    ensures Apart(Next(x, policy, st))
  {
    match st
    case Leaves(id) => LeavesApart(x, policy, id);
    case Beats(id, now) => BeatsApart(x, policy, id, now);
    case Prunes(cutoff) => PrunesApart(x, policy, cutoff);
    case Asks(key, cutoff) => AsksApart(x, policy, key, cutoff);
    case Picks(key, cands) => PicksApart(x, policy, key, cands);
    case Routes(key, r) => RoutesApart(x, policy, key, r);
    case Fails(key, r) => FailsApart(x, policy, key, r);
    case Starts(key, r) => StartsApart(x, policy, key, r);
    case Ends(id) => EndsApart(x, policy, id);
  }

  /** Each section keeps every client with its own namespace, save exactly one: the registration of an
      id in use under another namespace. */
  lemma StepKeepsApart(x: Sys, policy: Policy, st: Step)
    requires Sane(x) && Apart(x) && Enabled(x, st) && Sane(Next(x, policy, st))
    ensures Apart(Next(x, policy, st)) <==> !Moves(x, st)
  {
    if st.Joins? {
      JoinsApart(x, policy, st.b, st.now);
    } else {
      OtherKeepsApart(x, policy, st);
    }
  }

  /** No step of the run moves a record in use to another namespace. */
  ghost predicate Settled(x: Sys, policy: Policy, steps: seq<Step>)
    requires Sane(x)
    decreases |steps|
  {
    steps != [] ==>
      && Enabled(x, steps[0]) && !Moves(x, steps[0])
      && var x' := Next(x, policy, steps[0]);
         Sane(x') && Settled(x', policy, steps[1..])
  }

  lemma {:induction false} RunKeepsApart(x: Sys, policy: Policy, steps: seq<Step>, y: Sys)
    requires Sane(x) && Apart(x) && Reach(x, policy, steps, y) && Settled(x, policy, steps)
    ensures Sane(y) && Apart(y)
    decreases |steps|
  {
    if steps != [] {
      StepKeepsApart(x, policy, steps[0]);
      RunKeepsApart(Next(x, policy, steps[0]), policy, steps[1..], y);
    }
  }

  /** Over every run from any static backends in which no id in use is registered under another
      namespace: whoever is chosen, routed or answered belongs to the namespace of the key. */
  lemma TenantsStayApart(backends: seq<Backend>, policy: Policy, steps: seq<Step>, y: Sys, key: string, cutoff: int)
    requires Sane(Start(backends)) && Reach(Start(backends), policy, steps, y) && Settled(Start(backends), policy, steps)
    ensures Sane(y) && Apart(y)
    ensures RouteBackend(y.s, key, cutoff).Some? ==> OfKey(y.s.objs[RouteBackend(y.s, key, cutoff).value], key)
  {
    RunKeepsApart(Start(backends), policy, steps, y);
  }

  // ---------------------------------------------------------------- a tenant moved

  function Routed(d: Backend, key: string): Sys {
    Waiting(d).(s := AddRoute(Joined(d), key, 0), routed := multiset{(key, 0)})
  }

  lemma RoutedReached(d: Backend, key: string, cutoff: int)
    requires d.dynamic && d.lastSeen > cutoff && OfKey(d, key)
    ensures Sane(Start([])) && CanReach(Start([]), Sticky, Routed(d, key)) && Sane(Routed(d, key))
  {
    var y := Routed(d, key);
    Picking(d, key, cutoff);
    Joining(d);
    RoutedNext(d, key);
    assert Reach(y, Sticky, [], y);
    StepThen(Chosen(d, key), Sticky, Routes(key, 0), y, y);
    StepThen(Asked(d, key), Sticky, Picks(key, [0]), Chosen(d, key), y);
    StepThen(Waiting(d), Sticky, Asks(key, cutoff), Asked(d, key), y);
    StepThen(Start([]), Sticky, Joins(d, d.lastSeen), Waiting(d), y);
  }

  lemma RoutedNext(d: Backend, key: string)
    ensures Sane(Chosen(d, key)) && Sane(Routed(d, key)) && Next(Chosen(d, key), Sticky, Routes(key, 0)) == Routed(d, key)
  {
  }

  /** The failing input: a client is routed to its backend, the backend's id registers again under
      another namespace, and lookups still answer with it. */
  lemma RouteLeadsToAnotherNamespace(d: Backend, e: Backend, key: string, cutoff: int)
    requires d.dynamic && e.dynamic && d.id == e.id && d.lastSeen > cutoff && e.lastSeen > cutoff
    requires OfKey(d, key) && !OfKey(e, key)
    ensures Sane(Start([])) && CanReach(Start([]), Sticky, Routed(d, key)) && Sane(Routed(d, key))
    ensures Moves(Routed(d, key), Joins(e, e.lastSeen))
    ensures var z := Register(Routed(d, key).s, e, e.lastSeen);
            && WF(z) && z.objs == [e] && RouteBackend(z, key, cutoff) == Some(0)
  {
    RoutedReached(d, key, cutoff);
    RegistersAgain(d, e, key, cutoff);
    assert (key, 0) in Routed(d, key).routed && (key, 0).1 == 0;
    MovesAt(Routed(d, key), e, e.lastSeen);
  }

  lemma RegistersAgain(d: Backend, e: Backend, key: string, cutoff: int)
    requires e.dynamic && d.id == e.id && e.lastSeen > cutoff
    ensures WF(Routed(d, key).s) && RegisterAt(Routed(d, key).s, e) == 0
    ensures var z := Register(Routed(d, key).s, e, e.lastSeen);
            && WF(z) && z.objs == [e] && RouteBackend(z, key, cutoff) == Some(0)
  {
    var x := Routed(d, key);
    assert RegisterAt(x.s, e) == 0;
    var z := Register(x.s, e, e.lastSeen);
    assert z.objs == [e] && z.objs[z.backends[0]] == e;
  }
}
