/** Runs of the load balancer: any interleaving of its lock-held sections. */
module LbRuns {
  import opened TunnelKey
  import opened LbState

  /** The shared state, the client connections between two of their own sections, the ids of the
      relays now open, every id ever deregistered or pruned, and the very records that were. A
      connection that waits in `picking` holds its snapshot of the eligible backends. */
  datatype Sys = Sys(
    s: State,
    picking: multiset<(string, seq<nat>)>,
    chosen: multiset<(string, nat)>,
    routed: multiset<(string, nat)>,
    active: multiset<string>,
    removed: set<string>,
    gone: set<nat>)

  datatype Step =
    | Joins(b: Backend, now: int)
    | Leaves(id: string)
    | Beats(id: string, now: int)
    | Prunes(cutoff: int)
    | Asks(key: string, cutoff: int)
    | Picks(key: string, cands: seq<nat>)
    | Routes(key: string, r: nat)
    | Fails(key: string, r: nat)
    | Starts(key: string, r: nat)
    | Ends(id: string)

  ghost predicate Sane(x: Sys) {
    && WF(x.s)
    && (forall p | p in x.picking :: InRange(x.s.objs, p.1))
    && (forall p | p in x.chosen :: p.1 < |x.s.objs|)
    && (forall p | p in x.routed :: p.1 < |x.s.objs|)
  }

  predicate Enabled(x: Sys, st: Step) {
    match st
    case Picks(key, cands) => (key, cands) in x.picking
    case Routes(key, r) => (key, r) in x.chosen
    case Fails(key, r) => (key, r) in x.routed
    case Starts(key, r) => (key, r) in x.routed
    case Ends(id) => id in x.active
    case _ => true
  }

  /** The connection leaves `picking`, with a backend or with an error. */
  function Picked(x: Sys, key: string, cands: seq<nat>, s': State, r: Option<nat>): Sys {
    var y := x.(s := s', picking := x.picking - multiset{(key, cands)});
    if r.Some? then y.(chosen := y.chosen + multiset{(key, r.value)}) else y
  }

  ghost function Next(x: Sys, policy: Policy, st: Step): Sys
    requires Sane(x) && Enabled(x, st)
  {
    match st
    case Joins(b, now) => x.(s := Register(x.s, b, now))
    case Leaves(id) =>
      var i := DynamicAt(x.s, id);
      if i == |x.s.backends| then x
      else x.(s := Deregister(x.s, id), removed := x.removed + {id}, gone := x.gone + {x.s.backends[i]})
    case Beats(id, now) => x.(s := Touch(x.s, id, now))
    case Prunes(cutoff) => 
      x.(s := Prune(x.s, cutoff), removed := x.removed + ExpiredIds(x.s, cutoff),
         gone := x.gone + ExpiredRefs(x.s, cutoff))
    case Asks(key, cutoff) =>
      var r := RouteBackend(x.s, key, cutoff);
      if r.Some? then x.(chosen := x.chosen + multiset{(key, r.value)})
      else x.(picking := x.picking + multiset{(key, Eligible(x.s, cutoff))})
    case Picks(key, cands) =>
      var c := Choose(x.s, policy, key, cands);
      Picked(x, key, cands, c.0, c.1)
    case Routes(key, r) =>
      x.(s := AddRoute(x.s, key, r), chosen := x.chosen - multiset{(key, r)}, routed := x.routed + multiset{(key, r)})
    case Fails(key, r) =>
      x.(s := DropRoute(x.s, key, r), routed := x.routed - multiset{(key, r)})
    case Starts(key, r) =>
      var id := x.s.objs[r].id;
      x.(s := IncLoad(x.s, id), routed := x.routed - multiset{(key, r)}, active := x.active + multiset{id})
    case Ends(id) =>
      x.(s := DecLoad(x.s, id), active := x.active - multiset{id})
  }

  ghost predicate Reach(x: Sys, policy: Policy, steps: seq<Step>, y: Sys)
    requires Sane(x)
    decreases |steps|
  {
    if steps == [] then x == y
    else
      && Enabled(x, steps[0])
      && var x' := Next(x, policy, steps[0]);
         Sane(x') && Reach(x', policy, steps[1..], y)
  }

  function Start(backends: seq<Backend>): Sys {
    Sys(Initial(backends), multiset{}, multiset{}, multiset{}, multiset{}, {}, {})
  }

  // ---------------------------------------------------------------- the invariant

  /** A counter never exceeds the relays open on its id, and equals them until the id is removed. */
  ghost predicate LoadsOk(load: map<string, int>, active: multiset<string>, removed: set<string>) {
    forall id :: 0 <= LoadOf(load, id) <= active[id] && (id !in removed ==> LoadOf(load, id) == active[id])
  }

  /** The listed records are those never removed; removed records have removed ids. */
  ghost predicate GoneOk(x: Sys)
    requires Sane(x)
  {
    && (forall r | 0 <= r < |x.s.objs| :: r in x.s.backends <==> r !in x.gone)
    && (forall r | r in x.gone :: r < |x.s.objs| && x.s.objs[r].id in x.removed)
  }

  ghost predicate Inv(x: Sys) {
    && Sane(x) && DistinctPositions(x.s.backends) && GoneOk(x)
    && LoadsOk(x.s.load, x.active, x.removed)
  }

  /** Connections keep their references so long as no record disappears. */
  lemma SaneKept(x: Sys, y: Sys)
    requires Sane(x) && WF(y.s) && |x.s.objs| <= |y.s.objs|
    requires y.picking == x.picking && y.chosen == x.chosen && y.routed == x.routed
    ensures Sane(y)
  {
  }

  lemma JoinsKeeps(x: Sys, policy: Policy, b: Backend, now: int)
    requires Inv(x)
    ensures Inv(Next(x, policy, Joins(b, now)))
  {
    RegisterKeeps(x.s, b, now);
    RegisterPositions(x.s, b, now);
    SaneKept(x, Next(x, policy, Joins(b, now)));
  }

  lemma LeavesKeeps(x: Sys, policy: Policy, id: string)
    requires Inv(x)
    ensures Inv(Next(x, policy, Leaves(id)))
  {
    if DynamicAt(x.s, id) < |x.s.backends| {
      SplicedKeeps(x, policy, id);
    }
  }

  lemma SplicedKeeps(x: Sys, policy: Policy, id: string)
    requires Inv(x) && DynamicAt(x.s, id) < |x.s.backends|
    ensures Inv(Next(x, policy, Leaves(id)))
  {
    DeregisterPositions(x.s, id);
    SaneKept(x, Next(x, policy, Leaves(id)));
  }

  lemma BeatsKeeps(x: Sys, policy: Policy, id: string, now: int)
    requires Inv(x)
    ensures Inv(Next(x, policy, Beats(id, now)))
  {
    TouchKeeps(x.s, id, now);
    SaneKept(x, Next(x, policy, Beats(id, now)));
  }

  lemma PrunesKeeps(x: Sys, policy: Policy, cutoff: int)
    requires Inv(x)
    ensures Inv(Next(x, policy, Prunes(cutoff)))
  {
    PruneKeeps(x.s, cutoff);
    PrunePositions(x.s, cutoff);
    SaneKept(x, Next(x, policy, Prunes(cutoff)));
  }

  lemma AddChosen(x: Sys, key: string, r: nat)
    requires Inv(x) && r < |x.s.objs|
    ensures Inv(x.(chosen := x.chosen + multiset{(key, r)}))
  {
  }

  lemma AddPicking(x: Sys, key: string, cands: seq<nat>)
    requires Inv(x) && InRange(x.s.objs, cands)
    ensures Inv(x.(picking := x.picking + multiset{(key, cands)}))
  {
    var y := x.(picking := x.picking + multiset{(key, cands)});
    assert forall p | p in y.picking :: p in x.picking || p.1 == cands;
  }

  lemma DropPicking(x: Sys, s': State, key: string, cands: seq<nat>)
    requires Inv(x) && WF(s') && s' == x.s.(rr := s'.rr)
    ensures Inv(x.(s := s', picking := x.picking - multiset{(key, cands)}))
  {
    var y := x.(s := s', picking := x.picking - multiset{(key, cands)});
    assert forall p | p in y.picking :: p in x.picking;
  }

  lemma AsksKeeps(x: Sys, policy: Policy, key: string, cutoff: int)
    requires Inv(x)
    ensures Inv(Next(x, policy, Asks(key, cutoff)))
  {
    var r := RouteBackend(x.s, key, cutoff);
    if r.Some? {
      AddChosen(x, key, r.value);
    } else {
      AddPicking(x, key, Eligible(x.s, cutoff));
    }
  }

  lemma PickedKeeps(x: Sys, key: string, cands: seq<nat>, s': State, r: Option<nat>)
    requires Inv(x) && WF(s') && s' == x.s.(rr := s'.rr)
    requires r.Some? ==> r.value < |x.s.objs|
    ensures Inv(Picked(x, key, cands, s', r))
  {
    DropPicking(x, s', key, cands);
    if r.Some? {
      AddChosen(x.(s := s', picking := x.picking - multiset{(key, cands)}), key, r.value);
    }
  }

  lemma ChoiceInRange(x: Sys, policy: Policy, key: string, cands: seq<nat>)
    requires Inv(x) && (key, cands) in x.picking
    ensures InRange(x.s.objs, cands)
    ensures var c := Choose(x.s, policy, key, cands);
            WF(c.0) && c.0 == x.s.(rr := c.0.rr) && (c.1.Some? ==> c.1.value < |x.s.objs|)
  {
    assert InRange(x.s.objs, (key, cands).1);
  }

  lemma NextPicks(x: Sys, policy: Policy, key: string, cands: seq<nat>)
    requires Sane(x) && (key, cands) in x.picking && InRange(x.s.objs, cands)
    ensures Next(x, policy, Picks(key, cands))
         == Picked(x, key, cands, Choose(x.s, policy, key, cands).0, Choose(x.s, policy, key, cands).1)
  {
  }

  lemma PicksKeeps(x: Sys, policy: Policy, key: string, cands: seq<nat>)
    requires Inv(x) && (key, cands) in x.picking
    ensures Inv(Next(x, policy, Picks(key, cands)))
  {
    ChoiceInRange(x, policy, key, cands);
    NextPicks(x, policy, key, cands);
    PickedKeeps(x, key, cands, Choose(x.s, policy, key, cands).0, Choose(x.s, policy, key, cands).1);
  }

  lemma RoutesKeeps(x: Sys, policy: Policy, key: string, r: nat)
    requires Inv(x) && (key, r) in x.chosen
    ensures Inv(Next(x, policy, Routes(key, r)))
  {
    var y := Next(x, policy, Routes(key, r));
    assert (key, r).1 < |x.s.objs|;
    assert forall p | p in y.chosen :: p in x.chosen;
  }

  lemma FailsKeeps(x: Sys, policy: Policy, key: string, r: nat)
    requires Inv(x) && (key, r) in x.routed
    ensures Inv(Next(x, policy, Fails(key, r)))
  {
    var y := Next(x, policy, Fails(key, r));
    assert forall p | p in y.routed :: p in x.routed;
  }

  lemma StartsKeeps(x: Sys, policy: Policy, key: string, r: nat)
    requires Inv(x) && (key, r) in x.routed
    ensures Inv(Next(x, policy, Starts(key, r)))
  {
    var y := Next(x, policy, Starts(key, r));
    assert forall p | p in y.routed :: p in x.routed;
  }

  lemma EndsKeeps(x: Sys, policy: Policy, id: string)
    requires Inv(x) && id in x.active
    ensures Inv(Next(x, policy, Ends(id)))
  {
  }

  lemma StepKeeps(x: Sys, policy: Policy, st: Step)
    requires Inv(x) && Enabled(x, st)
    ensures Inv(Next(x, policy, st))
  {
    match st
    case Joins(b, now) => JoinsKeeps(x, policy, b, now);
    case Leaves(id) => LeavesKeeps(x, policy, id);
    case Beats(id, now) => BeatsKeeps(x, policy, id, now);
    case Prunes(cutoff) => PrunesKeeps(x, policy, cutoff);
    case Asks(key, cutoff) => AsksKeeps(x, policy, key, cutoff);
    case Picks(key, cands) => PicksKeeps(x, policy, key, cands);
    case Routes(key, r) => RoutesKeeps(x, policy, key, r);
    case Fails(key, r) => FailsKeeps(x, policy, key, r);
    case Starts(key, r) => StartsKeeps(x, policy, key, r);
    case Ends(id) => EndsKeeps(x, policy, id);
  }

  lemma {:induction false} RunKeeps(x: Sys, policy: Policy, steps: seq<Step>, y: Sys)
    requires Inv(x) && Reach(x, policy, steps, y)
    ensures Inv(y)
    decreases |steps|
  {
    if steps != [] {
      StepKeeps(x, policy, steps[0]);
      RunKeeps(Next(x, policy, steps[0]), policy, steps[1..], y);
    }
  }

  // ---------------------------------------------------------------- main results

  lemma StartIsFine(backends: seq<Backend>)
    ensures Inv(Start(backends))
  {
    var x := Start(backends);
    forall r | 0 <= r < |backends| ensures r in x.s.backends {
      assert x.s.backends[r] == r;
    }
  }

  lemma StepDistinct(x: Sys, policy: Policy, st: Step)
    requires Sane(x) && Enabled(x, st) && Distinct(x.s)
    ensures WF(Next(x, policy, st).s) && Distinct(Next(x, policy, st).s)
  {
    match st
    case Joins(b, now) => RegisterKeeps(x.s, b, now);
    case Leaves(id) => DeregisterKeeps(x.s, id);
    case Beats(id, now) => TouchKeeps(x.s, id, now);
    case Prunes(cutoff) => PruneKeeps(x.s, cutoff);
    case Picks(key, cands) => PickDistinct(x, policy, key, cands);
    case _ =>
  }

  lemma PickDistinct(x: Sys, policy: Policy, key: string, cands: seq<nat>)
    requires Sane(x) && (key, cands) in x.picking && Distinct(x.s)
    ensures WF(Next(x, policy, Picks(key, cands)).s) && Distinct(Next(x, policy, Picks(key, cands)).s)
  {
    assert InRange(x.s.objs, (key, cands).1);
    NextPicks(x, policy, key, cands);
  }

  lemma {:induction false} RunDistinct(x: Sys, policy: Policy, steps: seq<Step>, y: Sys)
    requires Sane(x) && Distinct(x.s) && Reach(x, policy, steps, y)
    ensures WF(y.s) && Distinct(y.s)
    decreases |steps|
  {
    if steps != [] {
      StepDistinct(x, policy, steps[0]);
      RunDistinct(Next(x, policy, steps[0]), policy, steps[1..], y);
    }
  }

  predicate DistinctIds(backends: seq<Backend>) {
    forall i, j | 0 <= i < j < |backends| :: backends[i].id != backends[j].id
  }

  /** After any run, whatever the static backends: counters are bounded by the open relays and exact
      until removal, and every key answered by a lookup leads to an id that is registered and
      unexpired, through its own record exactly when that record was never removed. Ids stay distinct
      if the static ones were. */
  lemma RunsAreSafe(backends: seq<Backend>, policy: Policy, steps: seq<Step>, y: Sys)
    requires Reach(Start(backends), policy, steps, y)
    ensures WF(y.s) && LoadsOk(y.s.load, y.active, y.removed)
    ensures forall key, cutoff | RouteBackend(y.s, key, cutoff).Some? ::
              var r := RouteBackend(y.s, key, cutoff).value;
              && Live(y.s, y.s.objs[r].id, cutoff)
              && (r in y.s.backends <==> r !in y.gone)
              && (r in y.gone ==> y.s.objs[r].id in y.removed)
    ensures DistinctIds(backends) ==> Distinct(y.s)
  {
    StartIsFine(backends);
    RunKeeps(Start(backends), policy, steps, y);
    if DistinctIds(backends) {
      RunDistinct(Start(backends), policy, steps, y);
    }
  }

  // ---------------------------------------------------------------- a stale pick

  ghost predicate CanReach(x: Sys, policy: Policy, y: Sys)
    requires Sane(x)
  {
    exists steps :: Reach(x, policy, steps, y)
  }

  lemma StepThen(x: Sys, policy: Policy, st: Step, x': Sys, y: Sys)
    requires Sane(x) && Enabled(x, st) && Next(x, policy, st) == x' && Sane(x')
    requires CanReach(x', policy, y)
    ensures CanReach(x, policy, y)
  {
    var steps := SomeRun(x', policy, y);
    ReachCons(x, policy, st, x', steps, [st] + steps, y);
    ReachIsCan(x, policy, [st] + steps, y);
  }

  lemma SomeRun(x: Sys, policy: Policy, y: Sys) returns (steps: seq<Step>)
    requires Sane(x) && CanReach(x, policy, y)
    ensures Reach(x, policy, steps, y)
  {
    steps :| Reach(x, policy, steps, y);
  }

  lemma ReachIsCan(x: Sys, policy: Policy, steps: seq<Step>, y: Sys)
    requires Sane(x) && Reach(x, policy, steps, y)
    ensures CanReach(x, policy, y)
  {
  }

  lemma ReachCons(x: Sys, policy: Policy, st: Step, x': Sys, rest: seq<Step>, steps: seq<Step>, y: Sys)
    requires Sane(x) && Enabled(x, st) && Next(x, policy, st) == x' && Sane(x')
    requires steps == [st] + rest && Reach(x', policy, rest, y)
    ensures Reach(x, policy, steps, y)
  {
    assert steps[0] == st && steps[1..] == rest;
  }

  lemma KeepOne(objs: seq<Backend>, r: nat, p: Backend -> bool)
    requires r < |objs| && p(objs[r])
    ensures Keep(objs, [r], p) == [r]
  {
    assert Keep(objs, [], p) == [];
    assert [r][..0] == [];
  }

  /** The states between: `d` has joined, its pick is made or pending, and it has left. */
  function Joined(d: Backend): State {
    State([d], [0], map[], map[d.id := 0], 0)
  }

  function Left(d: Backend): State {
    State([d], [], map[], map[], 0)
  }

  lemma JoinFirst(d: Backend)
    requires d.dynamic
    ensures Register(Initial([]), d, d.lastSeen) == Joined(d)
  {
  }

  /** Nobody but the first candidate that fits is chosen while no relay is counted. */
  lemma FirstChosen(s: State, key: string, cands: seq<nat>, fit: seq<nat>)
    requires WF(s) && InRange(s.objs, cands) && InNamespace(s.objs, cands, key) == fit != []
    requires forall i | 0 <= i < |fit| :: LoadOf(s.load, s.objs[fit[i]].id) == 0
    ensures Choose(s, Sticky, key, cands) == (s, Some(fit[0]))
  {
    var ls := Loads(s.objs, fit, s.load);
    FirstOfZeros(ls);
  }

  lemma FirstOfZeros(xs: seq<int>)
    requires xs != [] && forall i | 0 <= i < |xs| :: xs[i] == 0
    ensures FirstMin(xs) == 0
  {
  }

  lemma Unrouted(s: State, key: string, cutoff: int)
    requires WF(s) && s.routes == map[]
    ensures RouteBackend(s, key, cutoff) == None
  {
  }

  lemma OneEligible(d: Backend, key: string, cutoff: int)
    requires d.dynamic && d.lastSeen > cutoff && NormalizeNamespace(d.namespace) == SplitTunnelKey(key).0
    ensures Eligible(Joined(d), cutoff) == [0] && InNamespace([d], [0], key) == [0]
  {
    KeepOne([d], 0, (b: Backend) => Alive(b, cutoff));
    KeepOne([d], 0, (b: Backend) => NormalizeNamespace(b.namespace) == SplitTunnelKey(key).0);
  }

  lemma OnlyChoice(d: Backend, key: string, cutoff: int)
    requires d.dynamic && d.lastSeen > cutoff && NormalizeNamespace(d.namespace) == SplitTunnelKey(key).0
    ensures RouteBackend(Joined(d), key, cutoff) == None && Eligible(Joined(d), cutoff) == [0]
    ensures Choose(Joined(d), Sticky, key, [0]) == (Joined(d), Some(0))
  {
    OneEligible(d, key, cutoff);
    Unrouted(Joined(d), key, cutoff);
    FirstChosen(Joined(d), key, [0], [0]);
  }

  lemma LeaveOnly(d: Backend)
    requires d.dynamic
    ensures Deregister(Joined(d), d.id) == Left(d) && DynamicAt(Joined(d), d.id) == 0
  {
    assert First([d], [0], (o: Backend) => o.id == d.id && o.dynamic) == 0;
  }

  function Waiting(d: Backend): Sys {
    Sys(Joined(d), multiset{}, multiset{}, multiset{}, multiset{}, {}, {})
  }

  function Asked(d: Backend, key: string): Sys {
    Waiting(d).(picking := multiset{(key, [0])})
  }

  function Chosen(d: Backend, key: string): Sys {
    Waiting(d).(chosen := multiset{(key, 0)})
  }

  function Gone(d: Backend, key: string): Sys {
    Chosen(d, key).(s := Left(d), removed := {d.id}, gone := {0})
  }

  function Dangling(d: Backend, key: string): Sys {
    Sys(AddRoute(Left(d), key, 0), multiset{}, multiset{}, multiset{(key, 0)}, multiset{}, {d.id}, {0})
  }

  lemma Leaving(d: Backend, key: string)
    requires d.dynamic
    ensures Sane(Chosen(d, key)) && Next(Chosen(d, key), Sticky, Leaves(d.id)) == Gone(d, key)
    ensures Sane(Gone(d, key)) && Next(Gone(d, key), Sticky, Routes(key, 0)) == Dangling(d, key)
    ensures Sane(Dangling(d, key))
  {
    LeaveOnly(d);
  }

  lemma Picking(d: Backend, key: string, cutoff: int)
    requires d.dynamic && d.lastSeen > cutoff && NormalizeNamespace(d.namespace) == SplitTunnelKey(key).0
    ensures Sane(Waiting(d)) && Next(Waiting(d), Sticky, Asks(key, cutoff)) == Asked(d, key)
    ensures Sane(Asked(d, key)) && Next(Asked(d, key), Sticky, Picks(key, [0])) == Chosen(d, key)
  {
    Asking(d, key, cutoff);
    PickingOnly(d, key, cutoff);
  }

  lemma Asking(d: Backend, key: string, cutoff: int)
    requires d.dynamic && d.lastSeen > cutoff && NormalizeNamespace(d.namespace) == SplitTunnelKey(key).0
    ensures Sane(Waiting(d)) && Next(Waiting(d), Sticky, Asks(key, cutoff)) == Asked(d, key)
  {
    OnlyChoice(d, key, cutoff);
    NextAsks(Waiting(d), Sticky, key, cutoff, [0]);
  }

  lemma PickingOnly(d: Backend, key: string, cutoff: int)
    requires d.dynamic && d.lastSeen > cutoff && NormalizeNamespace(d.namespace) == SplitTunnelKey(key).0
    ensures Sane(Asked(d, key)) && Next(Asked(d, key), Sticky, Picks(key, [0])) == Chosen(d, key)
  {
    OnlyChoice(d, key, cutoff);
    NextPicks(Asked(d, key), Sticky, key, [0]);
    assert Picked(Asked(d, key), key, [0], Joined(d), Some(0)) == Chosen(d, key);
  }

  lemma Joining(d: Backend)
    requires d.dynamic
    ensures Sane(Start([])) && Next(Start([]), Sticky, Joins(d, d.lastSeen)) == Waiting(d)
  {
    JoinFirst(d);
  }

  lemma StaleRun(d: Backend, key: string, cutoff: int)
    requires d.dynamic && d.lastSeen > cutoff && NormalizeNamespace(d.namespace) == SplitTunnelKey(key).0
    ensures Sane(Start([])) && CanReach(Start([]), Sticky, Dangling(d, key))
  {
    Leaving(d, key);
    Picking(d, key, cutoff);
    Joining(d);
    assert Reach(Dangling(d, key), Sticky, [], Dangling(d, key));
    StepThen(Gone(d, key), Sticky, Routes(key, 0), Dangling(d, key), Dangling(d, key));
    StepThen(Chosen(d, key), Sticky, Leaves(d.id), Gone(d, key), Dangling(d, key));
    StepThen(Asked(d, key), Sticky, Picks(key, [0]), Chosen(d, key), Dangling(d, key));
    StepThen(Waiting(d), Sticky, Asks(key, cutoff), Asked(d, key), Dangling(d, key));
    StepThen(Start([]), Sticky, Joins(d, d.lastSeen), Waiting(d), Dangling(d, key));
  }

  lemma Rejoin(d: Backend, e: Backend, key: string, cutoff: int)
    requires d.dynamic && e.dynamic && d.id == e.id && e.lastSeen > cutoff
    ensures WF(Dangling(d, key).s) && RouteBackend(Dangling(d, key).s, key, cutoff) == None
    ensures var z := Register(Dangling(d, key).s, e, e.lastSeen);
            && WF(z) && RouteBackend(z, key, cutoff) == Some(0)
            && z.objs == [d, e] && z.backends == [1]
  {
    var s := Dangling(d, key).s;
    assert RegisterAt(s, e) == 0;
    var z := Register(s, e, e.lastSeen);
    assert z.objs == [d, e] && z.backends == [1] && z.routes == map[key := 0];
    assert z.objs[z.backends[0]] == e;
    assert Live(z, d.id, cutoff);
  }

  /** A pick that was made before its backend left still installs its route. Lookups refuse it while
      the id is gone, and once the id registers again they answer with the old record, whatever the
      new one says. */
  lemma StalePickServesOldRecord(d: Backend, e: Backend, key: string, cutoff: int)
    requires d.dynamic && e.dynamic && d.id == e.id && d.lastSeen > cutoff && e.lastSeen > cutoff
    requires NormalizeNamespace(d.namespace) == SplitTunnelKey(key).0
    ensures Sane(Start([])) && CanReach(Start([]), Sticky, Dangling(d, key))
    ensures key in Dangling(d, key).s.routes && RouteBackend(Dangling(d, key).s, key, cutoff) == None
    ensures 0 in Dangling(d, key).gone
    ensures var z := Register(Dangling(d, key).s, e, e.lastSeen);
            && WF(z) && RouteBackend(z, key, cutoff) == Some(0)
            && z.objs == [d, e] && z.backends == [1]
  {
    StaleRun(d, key, cutoff);
    Rejoin(d, e, key, cutoff);
  }

  // ---------------------------------------------------------------- counters after a removal

  /** Removing a backend under an open relay leaves its counter strictly below the open relays. */
  lemma RemovalForgetsRelays(x: Sys, policy: Policy, id: string)
    requires Inv(x) && x.active[id] > 0 && DynamicAt(x.s, id) < |x.s.backends|
    ensures Inv(Next(x, policy, Leaves(id)))
    ensures LoadOf(Next(x, policy, Leaves(id)).s.load, id) == 0 < Next(x, policy, Leaves(id)).active[id]
  {
    LeavesKeeps(x, policy, id);
  }

  // ---------------------------------------------------------------- repeated static ids

  /** Two static backends of one id; one has since registered as a dynamic backend and holds the
      route of `key`. */
  function TwinsJoined(st: Backend, d: Backend): State {
    State([d, st], [0, 1], map[], map[d.id := 0], 0)
  }

  function Twins(st: Backend, d: Backend): Sys {
    Sys(TwinsJoined(st, d), multiset{}, multiset{}, multiset{}, multiset{}, {}, {})
  }

  function TwinsAsked(st: Backend, d: Backend, key: string): Sys {
    Twins(st, d).(picking := multiset{(key, [0, 1])})
  }

  function TwinsChosen(st: Backend, d: Backend, key: string): Sys {
    Twins(st, d).(chosen := multiset{(key, 0)})
  }

  function TwinsRouted(st: Backend, d: Backend, key: string): Sys {
    Twins(st, d).(s := AddRoute(TwinsJoined(st, d), key, 0), routed := multiset{(key, 0)})
  }

  predicate TwinsOf(st: Backend, d: Backend, key: string) {
    && !st.dynamic && d.dynamic && d.id == st.id && d.namespace == st.namespace
    && NormalizeNamespace(d.namespace) == SplitTunnelKey(key).0
  }

  lemma KeepBoth(objs: seq<Backend>, p: Backend -> bool)
    requires |objs| == 2 && p(objs[0]) && p(objs[1])
    ensures Keep(objs, [0, 1], p) == [0, 1]
  {
    KeepOne(objs, 0, p);
    assert [0, 1][..1] == [0];
  }

  lemma TwinsStart(st: Backend, d: Backend, key: string)
    requires TwinsOf(st, d, key)
    ensures Sane(Start([st, st])) && Next(Start([st, st]), Sticky, Joins(d, d.lastSeen)) == Twins(st, d)
  {
    var s := Initial([st, st]);
    assert [st, st][0].id in IdsOf([st, st]);
    assert IdsOf([st, st]) == {d.id};
    assert s.backends == [0, 1] && s.load == map[d.id := 0];
    assert RegisterAt(s, d) == 0;
    assert s.objs[0 := d] == [d, st];
  }

  lemma TwinsEligible(st: Backend, d: Backend, key: string, cutoff: int)
    requires TwinsOf(st, d, key) && d.lastSeen > cutoff
    ensures Eligible(TwinsJoined(st, d), cutoff) == [0, 1] && InNamespace([d, st], [0, 1], key) == [0, 1]
  {
    KeepBoth([d, st], (b: Backend) => Alive(b, cutoff));
    KeepBoth([d, st], (b: Backend) => NormalizeNamespace(b.namespace) == SplitTunnelKey(key).0);
  }

  lemma TwinsChoice(st: Backend, d: Backend, key: string, cutoff: int)
    requires TwinsOf(st, d, key) && d.lastSeen > cutoff
    ensures RouteBackend(TwinsJoined(st, d), key, cutoff) == None && Eligible(TwinsJoined(st, d), cutoff) == [0, 1]
    ensures Choose(TwinsJoined(st, d), Sticky, key, [0, 1]) == (TwinsJoined(st, d), Some(0))
  {
    TwinsEligible(st, d, key, cutoff);
    Unrouted(TwinsJoined(st, d), key, cutoff);
    FirstChosen(TwinsJoined(st, d), key, [0, 1], [0, 1]);
  }

  lemma TwinsAsk(st: Backend, d: Backend, key: string, cutoff: int)
    requires TwinsOf(st, d, key) && d.lastSeen > cutoff
    ensures Sane(Twins(st, d)) && Next(Twins(st, d), Sticky, Asks(key, cutoff)) == TwinsAsked(st, d, key)
    ensures Sane(TwinsAsked(st, d, key))
  {
    TwinsSane(st, d, key);
    TwinsChoice(st, d, key, cutoff);
    NextAsks(Twins(st, d), Sticky, key, cutoff, [0, 1]);
  }

  lemma NextAsks(x: Sys, policy: Policy, key: string, cutoff: int, cands: seq<nat>)
    requires Sane(x) && RouteBackend(x.s, key, cutoff) == None && Eligible(x.s, cutoff) == cands
    ensures Next(x, policy, Asks(key, cutoff)) == x.(picking := x.picking + multiset{(key, cands)})
  {
  }

  lemma TwinsSane(st: Backend, d: Backend, key: string)
    ensures Sane(Twins(st, d)) && Sane(TwinsAsked(st, d, key))
    ensures Twins(st, d).(picking := Twins(st, d).picking + multiset{(key, [0, 1])}) == TwinsAsked(st, d, key)
  {
  }

  lemma TwinsPick(st: Backend, d: Backend, key: string, cutoff: int)
    requires TwinsOf(st, d, key) && d.lastSeen > cutoff && Sane(TwinsAsked(st, d, key))
    ensures Next(TwinsAsked(st, d, key), Sticky, Picks(key, [0, 1])) == TwinsChosen(st, d, key)
  {
    TwinsChoice(st, d, key, cutoff);
    NextPicks(TwinsAsked(st, d, key), Sticky, key, [0, 1]);
    assert Picked(TwinsAsked(st, d, key), key, [0, 1], TwinsJoined(st, d), Some(0)) == TwinsChosen(st, d, key);
  }

  lemma TwinsRoute(st: Backend, d: Backend, key: string)
    ensures Sane(TwinsChosen(st, d, key)) && Sane(TwinsRouted(st, d, key))
    ensures Next(TwinsChosen(st, d, key), Sticky, Routes(key, 0)) == TwinsRouted(st, d, key)
  {
  }

  lemma TwinsRun(st: Backend, d: Backend, key: string, cutoff: int)
    requires TwinsOf(st, d, key) && d.lastSeen > cutoff
    ensures Sane(Start([st, st])) && CanReach(Start([st, st]), Sticky, TwinsRouted(st, d, key))
  {
    var y := TwinsRouted(st, d, key);
    TwinsStart(st, d, key);
    TwinsAsk(st, d, key, cutoff);
    TwinsPick(st, d, key, cutoff);
    TwinsRoute(st, d, key);
    assert Reach(y, Sticky, [], y);
    StepThen(TwinsChosen(st, d, key), Sticky, Routes(key, 0), y, y);
    StepThen(TwinsAsked(st, d, key), Sticky, Picks(key, [0, 1]), TwinsChosen(st, d, key), y);
    StepThen(Twins(st, d), Sticky, Asks(key, cutoff), TwinsAsked(st, d, key), y);
    StepThen(Start([st, st]), Sticky, Joins(d, d.lastSeen), Twins(st, d), y);
  }

  /** With a repeated static id the pruning of an expired record is visible after a run: the key is
      answered just before, by way of the static twin, and not just after. */
  lemma PruneVisibleWithRepeatedIds(st: Backend, d: Backend, key: string, cutoff: int, later: int)
    requires TwinsOf(st, d, key) && cutoff < d.lastSeen <= later
    ensures Sane(Start([st, st])) && CanReach(Start([st, st]), Sticky, TwinsRouted(st, d, key))
    ensures var s := TwinsRouted(st, d, key).s;
            && WF(s) && WF(Prune(s, later))
            && RouteBackend(s, key, later) == Some(0) && RouteBackend(Prune(s, later), key, later) == None
  {
    TwinsRun(st, d, key, cutoff);
    TwinsCut(st, d, key, later);
    RouteChangedByPrune(TwinsRouted(st, d, key).s, later, later, key);
  }

  lemma TwinsCut(st: Backend, d: Backend, key: string, later: int)
    requires TwinsOf(st, d, key) && d.lastSeen <= later
    ensures var s := TwinsRouted(st, d, key).s;
            WF(s) && RouteCut(s, later, later, key) && RouteBackend(s, key, later) == Some(0)
  {
    var s := TwinsRouted(st, d, key).s;
    assert s.objs[s.backends[1]].id == d.id && Alive(s.objs[s.backends[1]], later);
    assert s.objs[s.backends[0]].id in ExpiredIds(s, later);
  }

  // ---------------------------------------------------------------- pruning in any run

  lemma LoadsAreCounted(s: State, active: multiset<string>, removed: set<string>)
    requires LoadsOk(s.load, active, removed)
    ensures Counted(s)
  {
    forall id | id in s.load ensures s.load[id] >= 0 {
      assert LoadOf(s.load, id) >= 0;
    }
  }

  /** After any run from any static backends, the exact conditions hold: a pruning changes a lookup
      iff it cuts the route, and a pick iff it cuts the route or drops a counter that decides. */
  lemma PruneAfterAnyRun(backends: seq<Backend>, policy: Policy, steps: seq<Step>, y: Sys, cutoff: int, later: int, key: string)
    requires Reach(Start(backends), policy, steps, y) && cutoff <= later
    ensures WF(y.s) && WF(Prune(y.s, cutoff))
    ensures RouteBackend(Prune(y.s, cutoff), key, later) != RouteBackend(y.s, key, later)
       <==> RouteCut(y.s, cutoff, later, key)
    ensures PickBackend(Prune(y.s, cutoff), policy, key, later).1 != PickBackend(y.s, policy, key, later).1
       <==> PickMoves(y.s, cutoff, later, policy, key)
  {
    StartIsFine(backends);
    RunKeeps(Start(backends), policy, steps, y);
    LoadsAreCounted(y.s, y.active, y.removed);
    RouteChangedByPrune(y.s, cutoff, later, key);
    PickChangedByPrune(y.s, cutoff, later, policy, key);
  }
}
