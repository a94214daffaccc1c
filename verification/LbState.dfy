/** The load balancer's shared state and its lock-held sections, each one step. */
module LbState {
  import opened Text
  import opened TunnelKey

  datatype Option<+T> = None | Some(value: T)

  datatype Backend = Backend(
    id: string, host: string, controlPort: string, publicPort: string,
    namespace: string, dynamic: bool, fleetId: string, lastSeen: int)

  /** `objs` are all records ever made; the backend list and the routes refer to them by position.
      Times are seconds; `rr` is the 64-bit round-robin counter. */
  datatype State = State(
    objs: seq<Backend>, backends: seq<nat>, routes: map<string, nat>, load: map<string, int>, rr: nat)

  predicate InRange(objs: seq<Backend>, refs: seq<nat>) {
    forall i | 0 <= i < |refs| :: refs[i] < |objs|
  }

  predicate WF(s: State) {
    && InRange(s.objs, s.backends)
    && (forall k | k in s.routes :: s.routes[k] < |s.objs|)
    && s.rr < 0x1_0000_0000_0000_0000
  }

  predicate DistinctRefs(objs: seq<Backend>, refs: seq<nat>)
    requires InRange(objs, refs)
  {
    forall i, j | 0 <= i < j < |refs| :: objs[refs[i]].id != objs[refs[j]].id
  }

  predicate Distinct(s: State)
    requires WF(s)
  {
    DistinctRefs(s.objs, s.backends)
  }

  /** backendAvailable: a static backend always, a dynamic one while its last sign of life is
      after `cutoff`, which is the time of the call less the registration time-to-live. */
  predicate Alive(b: Backend, cutoff: int) {
    !b.dynamic || b.lastSeen > cutoff
  }

  predicate Live(s: State, id: string, cutoff: int)
    requires WF(s)
  {
    exists i :: 0 <= i < |s.backends| && s.objs[s.backends[i]].id == id && Alive(s.objs[s.backends[i]], cutoff)
  }

  function LoadOf(load: map<string, int>, id: string): int {
    if id in load then load[id] else 0
  }

  /** The references whose record satisfies `p`, in order. */
  function Keep(objs: seq<Backend>, refs: seq<nat>, p: Backend -> bool): (r: seq<nat>)
    requires InRange(objs, refs)
    ensures forall x :: x in r <==> x in refs && x < |objs| && p(objs[x])
    ensures InRange(objs, r)
  {
    if refs == [] then []
    else
      var n := |refs| - 1;
      assert refs == refs[..n] + [refs[n]];
      var r := Keep(objs, refs[..n], p);
      if p(objs[refs[n]]) then r + [refs[n]] else r
  }

  /** The position of the first reference whose record satisfies `p`, or the length. */
  function First(objs: seq<Backend>, refs: seq<nat>, p: Backend -> bool): (r: nat)
    requires InRange(objs, refs)
    ensures r <= |refs|
    ensures forall i | 0 <= i < r :: !p(objs[refs[i]])
    ensures r < |refs| ==> p(objs[refs[r]])
  {
    if refs == [] then 0
    else if p(objs[refs[0]]) then 0
    else
      assert refs == [refs[0]] + refs[1..];
      1 + First(objs, refs[1..], p)
  }

  // ---------------------------------------------------------------- registration

  function RegisterAt(s: State, b: Backend): nat
    requires WF(s)
  {
    First(s.objs, s.backends, (o: Backend) => o.id == b.id)
  }

  /** registerDynamicBackend: overwrite the first record of that id, or append a new one. `now` is
      the time under the lock; the request's own stamp `b.lastSeen` was taken before it. */
  function Register(s: State, b: Backend, now: int): State
    requires WF(s)
  {
    var i := RegisterAt(s, b);
    var d := b.(dynamic := true);
    if i < |s.backends| then s.(objs := s.objs[s.backends[i] := d.(lastSeen := now)])
    else s.(objs := s.objs + [d], backends := s.backends + [|s.objs|],
            load := if b.id in s.load then s.load else s.load[b.id := 0])
  }

  function DynamicAt(s: State, id: string): nat
    requires WF(s)
  {
    First(s.objs, s.backends, (o: Backend) => o.id == id && o.dynamic)
  }

  /** The routes whose record's id is not in `ids`. */
  function RoutesWithout(s: State, ids: set<string>): map<string, nat>
    requires WF(s)
  {
    map k | k in s.routes && s.objs[s.routes[k]].id !in ids :: s.routes[k]
  }

  function Without(refs: seq<nat>, i: nat): (r: seq<nat>)
    requires i < |refs|
    ensures |r| == |refs| - 1
    ensures forall k | 0 <= k < |r| :: r[k] == refs[if k < i then k else k + 1]
    ensures forall k | 0 <= k < |refs| && k != i :: refs[k] in r
    ensures forall x | x in r :: x in refs
  {
    assert forall k | 0 <= k < |refs| && k != i :: refs[k] == (refs[..i] + refs[i + 1..])[if k < i then k else k - 1];
    refs[..i] + refs[i + 1..]
  }

  /** deregisterDynamicBackend. */
  function Deregister(s: State, id: string): State
    requires WF(s)
  {
    var i := DynamicAt(s, id);
    if i == |s.backends| then s
    else s.(backends := Without(s.backends, i), load := s.load - {id}, routes := RoutesWithout(s, {id}))
  }

  /** touchDynamicBackend. */
  function Touch(s: State, id: string, now: int): State
    requires WF(s)
  {
    var i := DynamicAt(s, id);
    if i == |s.backends| then s
    else s.(objs := s.objs[s.backends[i] := s.objs[s.backends[i]].(lastSeen := now)])
  }

  /** eligibleBackends. */
  function Eligible(s: State, cutoff: int): seq<nat>
    requires WF(s)
  {
    Keep(s.objs, s.backends, (b: Backend) => Alive(b, cutoff))
  }

  function ExpiredOf(objs: seq<Backend>, refs: seq<nat>, cutoff: int): set<string>
    requires InRange(objs, refs)
  {
    set i | 0 <= i < |refs| && !Alive(objs[refs[i]], cutoff) :: objs[refs[i]].id
  }

  function ExpiredIds(s: State, cutoff: int): set<string>
    requires WF(s)
  {
    ExpiredOf(s.objs, s.backends, cutoff)
  }

  function ExpiredRefs(s: State, cutoff: int): set<nat>
    requires WF(s)
  {
    set r | r in s.backends && !Alive(s.objs[r], cutoff)
  }

  /** pruneStaleBackends. */
  function Prune(s: State, cutoff: int): State
    requires WF(s)
  {
    var gone := ExpiredIds(s, cutoff);
    s.(backends := Eligible(s, cutoff), load := s.load - gone, routes := RoutesWithout(s, gone))
  }

  // ---------------------------------------------------------------- picking

  /** routeBackend, and the sticky branch of pickBackend. */
  function RouteBackend(s: State, key: string, cutoff: int): Option<nat>
    requires WF(s)
  {
    if key in s.routes && Live(s, s.objs[s.routes[key]].id, cutoff) then Some(s.routes[key]) else None
  }

  function InNamespace(objs: seq<Backend>, refs: seq<nat>, key: string): seq<nat>
    requires InRange(objs, refs)
  {
    Keep(objs, refs, (b: Backend) => NormalizeNamespace(b.namespace) == SplitTunnelKey(key).0)
  }

  /** The position of the first least element. */
  function FirstMin(xs: seq<int>): (r: nat)
    requires xs != []
    ensures r < |xs| && (forall i | 0 <= i < |xs| :: xs[r] <= xs[i]) && (forall i | 0 <= i < r :: xs[r] < xs[i])
  {
    if |xs| == 1 then 0
    else
      var n := |xs| - 1;
      var r := FirstMin(xs[..n]);
      if xs[n] < xs[r] then n else r
  }

  function Loads(objs: seq<Backend>, refs: seq<nat>, load: map<string, int>): (r: seq<int>)
    requires InRange(objs, refs)
    ensures |r| == |refs| && forall i | 0 <= i < |r| :: r[i] == LoadOf(load, objs[refs[i]].id)
  {
    seq(|refs|, i requires 0 <= i < |refs| => LoadOf(load, objs[refs[i]].id))
  }

  /** A 64-bit unsigned value read as signed. */
  function ToInt64(x: nat): int {
    if x < 0x8000_0000_0000_0000 then x else x - 0x1_0000_0000_0000_0000
  }

  /** The remainder that takes the sign of the dividend. */
  function Rem(x: int, n: int): int
    requires n > 0
  {
    if x >= 0 then x % n else -((-x) % n)
  }

  /** pickRoundRobin's index; None where it is negative and the indexing panics. */
  function RoundRobinIndex(rr: nat, n: nat): Option<nat>
    requires n > 0
  {
    var i := Rem(ToInt64(rr), n);
    if i < 0 then None else Some(i)
  }

  /** The index is in bounds exactly for the counter values below 2^63 and those whose distance to
      2^64 is a multiple of the number of backends. */
  lemma RoundRobinInBounds(rr: nat, n: nat)
    requires n > 0 && rr < 0x1_0000_0000_0000_0000
    ensures RoundRobinIndex(rr, n).Some? <==>
              rr < 0x8000_0000_0000_0000 || (0x1_0000_0000_0000_0000 - rr) % n == 0
    ensures RoundRobinIndex(rr, n).Some? ==> RoundRobinIndex(rr, n).value < n
  {
  }

  datatype Policy = Sticky | RoundRobin

  /** The choice among `cands`, made after the read lock was given up and taken again. */
  function Choose(s: State, policy: Policy, key: string, cands: seq<nat>): (r: (State, Option<nat>))
    requires WF(s) && InRange(s.objs, cands)
    ensures WF(r.0) && r.0 == s.(rr := r.0.rr)
    ensures r.1.Some? ==> r.1.value in InNamespace(s.objs, cands, key)
  {
    var fit := InNamespace(s.objs, cands, key);
    if fit == [] then (s, None)
    else if policy == Sticky then (s, Some(fit[FirstMin(Loads(s.objs, fit, s.load))]))
    else
      var i := RoundRobinIndex(s.rr, |fit|);
      (s.(rr := (s.rr + 1) % 0x1_0000_0000_0000_0000),
       if i.Some? then (RoundRobinInBounds(s.rr, |fit|); Some(fit[i.value])) else None)
  }

  /** pickBackend with nothing happening between its two halves. */
  function PickBackend(s: State, policy: Policy, key: string, cutoff: int): (State, Option<nat>)
    requires WF(s)
  {
    var r := RouteBackend(s, key, cutoff);
    if r.Some? then (s, r) else Choose(s, policy, key, Eligible(s, cutoff))
  }

  // ---------------------------------------------------------------- routes and loads

  function AddRoute(s: State, key: string, r: nat): State {
    s.(routes := s.routes[key := r])
  }

  function DropRoute(s: State, key: string, r: nat): State
    requires WF(s) && r < |s.objs|
  {
    if key in s.routes && s.objs[s.routes[key]].id == s.objs[r].id then s.(routes := s.routes - {key}) else s
  }

  function IncLoad(s: State, id: string): State {
    s.(load := s.load[id := LoadOf(s.load, id) + 1])
  }

  function DecLoad(s: State, id: string): State {
    if LoadOf(s.load, id) > 0 then s.(load := s.load[id := LoadOf(s.load, id) - 1]) else s
  }

  function IdsOf(backends: seq<Backend>): set<string> {
    set i | 0 <= i < |backends| :: backends[i].id
  }

  /** newLBManager. */
  function Initial(backends: seq<Backend>): (s: State)
    ensures WF(s)
    ensures forall id :: LoadOf(s.load, id) == 0
  {
    State(backends, seq(|backends|, i => i), map[],
          map id | id in IdsOf(backends) :: 0, 0)
  }

  /** A failed dial undoes its own route, and a relay's end undoes its start. */
  lemma DropUndoesAdd(s: State, key: string, r: nat)
    requires WF(s) && r < |s.objs|
    ensures WF(AddRoute(s, key, r)) && key !in DropRoute(AddRoute(s, key, r), key, r).routes
    ensures key !in s.routes ==> DropRoute(AddRoute(s, key, r), key, r) == s
  {
    assert key !in s.routes ==> s.routes[key := r] - {key} == s.routes;
  }

  lemma DecUndoesInc(s: State, id: string)
    requires LoadOf(s.load, id) >= 0
    ensures forall x :: LoadOf(DecLoad(IncLoad(s, id), id).load, x) == LoadOf(s.load, x)
    ensures DecLoad(IncLoad(s, id), id) == s.(load := s.load[id := LoadOf(s.load, id)])
  {
  }

  // ---------------------------------------------------------------- what each step keeps

  lemma RegisterKeeps(s: State, b: Backend, now: int)
    requires WF(s)
    ensures WF(Register(s, b, now))
    ensures |s.objs| <= |Register(s, b, now).objs|
    ensures forall r | 0 <= r < |s.objs| :: Register(s, b, now).objs[r].id == s.objs[r].id
    ensures Distinct(s) ==> Distinct(Register(s, b, now))
    ensures forall r | r in s.backends :: r in Register(s, b, now).backends
    ensures forall id :: LoadOf(Register(s, b, now).load, id) == LoadOf(s.load, id)
  {
  }

  lemma RegisterPositions(s: State, b: Backend, now: int)
    requires WF(s) && DistinctPositions(s.backends)
    ensures DistinctPositions(Register(s, b, now).backends)
    ensures forall r | 0 <= r < |Register(s, b, now).objs| ::
              r in Register(s, b, now).backends <==> r in s.backends || r >= |s.objs|
  {
  }

  lemma DeregisterKeeps(s: State, id: string)
    requires WF(s)
    ensures WF(Deregister(s, id))
    ensures Distinct(s) ==> Distinct(Deregister(s, id))
    ensures forall r | r in s.backends && s.objs[r].id != id :: r in Deregister(s, id).backends
  {
    var i := DynamicAt(s, id);
    if i < |s.backends| {
      WithoutKeeps(s.objs, s.backends, i);
    }
  }

  /** Exactly the spliced record is gone. */
  lemma DeregisterPositions(s: State, id: string)
    requires WF(s) && DistinctPositions(s.backends) && DynamicAt(s, id) < |s.backends|
    ensures WF(Deregister(s, id)) && DistinctPositions(Deregister(s, id).backends)
    ensures forall r :: r in Deregister(s, id).backends <==> r in s.backends && r != s.backends[DynamicAt(s, id)]
  {
    WithoutKeeps(s.objs, s.backends, DynamicAt(s, id));
  }

  lemma WithoutKeeps(objs: seq<Backend>, refs: seq<nat>, i: nat)
    requires InRange(objs, refs) && i < |refs|
    ensures InRange(objs, Without(refs, i))
    ensures DistinctRefs(objs, refs) ==> DistinctRefs(objs, Without(refs, i))
    ensures DistinctPositions(refs) ==> DistinctPositions(Without(refs, i)) && refs[i] !in Without(refs, i)
    ensures forall r | r in refs && objs[r].id != objs[refs[i]].id :: r in Without(refs, i)
  {
  }

  lemma TouchKeeps(s: State, id: string, now: int)
    requires WF(s)
    ensures WF(Touch(s, id, now))
    ensures |s.objs| == |Touch(s, id, now).objs|
    ensures forall r | 0 <= r < |s.objs| :: Touch(s, id, now).objs[r].id == s.objs[r].id
    ensures Distinct(s) ==> Distinct(Touch(s, id, now))
  {
  }

  lemma {:induction false} KeepDistinct(objs: seq<Backend>, refs: seq<nat>, p: Backend -> bool)
    requires InRange(objs, refs) && DistinctRefs(objs, refs)
    ensures DistinctRefs(objs, Keep(objs, refs, p))
  {
    if refs != [] {
      var n := |refs| - 1;
      KeepDistinct(objs, refs[..n], p);
      var r := Keep(objs, refs[..n], p);
      forall i | 0 <= i < |r| ensures objs[r[i]].id != objs[refs[n]].id {
        assert r[i] in refs[..n];
      }
    }
  }

  lemma PruneKeeps(s: State, cutoff: int)
    requires WF(s)
    ensures WF(Prune(s, cutoff))
    ensures Distinct(s) ==> Distinct(Prune(s, cutoff))
    ensures forall r | r in s.backends && r < |s.objs| && s.objs[r].id !in ExpiredIds(s, cutoff) ::
              r in Prune(s, cutoff).backends
  {
    if Distinct(s) {
      KeepDistinct(s.objs, s.backends, (b: Backend) => Alive(b, cutoff));
    }
  }

  lemma PrunePositions(s: State, cutoff: int)
    requires WF(s) && DistinctPositions(s.backends)
    ensures WF(Prune(s, cutoff)) && DistinctPositions(Prune(s, cutoff).backends)
    ensures forall r :: r in Prune(s, cutoff).backends <==> r in s.backends && r !in ExpiredRefs(s, cutoff)
  {
    KeepPositions(s.objs, s.backends, (b: Backend) => Alive(b, cutoff));
  }

  // ---------------------------------------------------------------- pruning is invisible

  /** With distinct ids, an expired id has no record that is alive at that time or later. */
  lemma ExpiredIsNotLive(s: State, cutoff: int, later: int)
    requires WF(s) && Distinct(s) && cutoff <= later
    ensures forall id :: Live(s, id, later) ==> id !in ExpiredIds(s, cutoff)
  {
  }

  lemma PruneWF(s: State, cutoff: int)
    requires WF(s)
    ensures WF(Prune(s, cutoff))
  {
  }

  /** An id with an unexpired record keeps one. */
  lemma LiveAfterPrune(s: State, cutoff: int, later: int, id: string)
    requires WF(s) && cutoff <= later
    ensures WF(Prune(s, cutoff)) && (Live(Prune(s, cutoff), id, later) <==> Live(s, id, later))
  {
    var t := Prune(s, cutoff);
    PruneWF(s, cutoff);
    if Live(s, id, later) {
      var i :| 0 <= i < |s.backends| && s.objs[s.backends[i]].id == id && Alive(s.objs[s.backends[i]], later);
      assert s.backends[i] in t.backends;
      var j :| 0 <= j < |t.backends| && t.backends[j] == s.backends[i];
    }
    if Live(t, id, later) {
      var j :| 0 <= j < |t.backends| && t.objs[t.backends[j]].id == id && Alive(t.objs[t.backends[j]], later);
      assert t.backends[j] in s.backends;
      var i :| 0 <= i < |s.backends| && s.backends[i] == t.backends[j];
    }
  }

  /** The route is answered, but its id also has an expired record. */
  predicate RouteCut(s: State, cutoff: int, later: int, key: string)
    requires WF(s)
  {
    key in s.routes && s.objs[s.routes[key]].id in ExpiredIds(s, cutoff) && Live(s, s.objs[s.routes[key]].id, later)
  }

  /** The exact condition, with or without repeated ids: pruning changes a lookup iff the route's id
      has both an expired and an unexpired record. */
  lemma RouteChangedByPrune(s: State, cutoff: int, later: int, key: string)
    requires WF(s) && cutoff <= later
    ensures WF(Prune(s, cutoff))
    ensures RouteBackend(Prune(s, cutoff), key, later) != RouteBackend(s, key, later) <==> RouteCut(s, cutoff, later, key)
    ensures RouteCut(s, cutoff, later, key) ==> RouteBackend(Prune(s, cutoff), key, later) == None
  {
    PruneWF(s, cutoff);
    if key in s.routes {
      LiveAfterPrune(s, cutoff, later, s.objs[s.routes[key]].id);
    }
  }

  lemma {:induction false} KeepTwice(objs: seq<Backend>, refs: seq<nat>, p: Backend -> bool, q: Backend -> bool)
    requires InRange(objs, refs)
    requires forall b :: q(b) ==> p(b)
    ensures Keep(objs, Keep(objs, refs, p), q) == Keep(objs, refs, q)
  {
    if refs != [] {
      var n := |refs| - 1;
      KeepTwice(objs, refs[..n], p, q);
      var r := Keep(objs, refs[..n], p);
      assert (r + [refs[n]])[..|r|] == r;
    }
  }

  lemma RouteAfterPrune(s: State, cutoff: int, later: int, key: string)
    requires WF(s) && Distinct(s) && cutoff <= later
    ensures WF(Prune(s, cutoff))
    ensures RouteBackend(Prune(s, cutoff), key, later) == RouteBackend(s, key, later)
  {
    ExpiredIsNotLive(s, cutoff, later);
    RouteChangedByPrune(s, cutoff, later, key);
  }

  lemma EligibleAfterPrune(s: State, cutoff: int, later: int)
    requires WF(s) && cutoff <= later
    ensures WF(Prune(s, cutoff)) && Eligible(Prune(s, cutoff), later) == Eligible(s, later)
  {
    PruneWF(s, cutoff);
    KeepTwice(s.objs, s.backends, (b: Backend) => Alive(b, cutoff), (b: Backend) => Alive(b, later));
  }

  lemma EligibleIsLive(s: State, cutoff: int, r: nat)
    requires WF(s) && r in Eligible(s, cutoff)
    ensures r < |s.objs| && Live(s, s.objs[r].id, cutoff)
  {
    var j :| 0 <= j < |s.backends| && s.backends[j] == r;
  }

  lemma LoadsAfterPrune(s: State, cutoff: int, later: int, key: string)
    requires WF(s) && Distinct(s) && cutoff <= later
    ensures var fit := InNamespace(s.objs, Eligible(s, later), key);
            Loads(s.objs, fit, Prune(s, cutoff).load) == Loads(s.objs, fit, s.load)
  {
    var fit := InNamespace(s.objs, Eligible(s, later), key);
    ExpiredIsNotLive(s, cutoff, later);
    forall i | 0 <= i < |fit|
      ensures LoadOf(Prune(s, cutoff).load, s.objs[fit[i]].id) == LoadOf(s.load, s.objs[fit[i]].id)
    {
      assert fit[i] in Eligible(s, later);
      EligibleIsLive(s, later, fit[i]);
    }
  }

  /** Every route and pick answer, at the cutoff of the pruning or any later one, is the same before
      and after it. */
  lemma PruneIsInvisible(s: State, cutoff: int, later: int, policy: Policy, key: string)
    requires WF(s) && Distinct(s) && cutoff <= later
    ensures WF(Prune(s, cutoff))
    ensures RouteBackend(Prune(s, cutoff), key, later) == RouteBackend(s, key, later)
    ensures Eligible(Prune(s, cutoff), later) == Eligible(s, later)
    ensures PickBackend(Prune(s, cutoff), policy, key, later).1 == PickBackend(s, policy, key, later).1
    ensures PickBackend(Prune(s, cutoff), policy, key, later).0.rr == PickBackend(s, policy, key, later).0.rr
  {
    RouteAfterPrune(s, cutoff, later, key);
    EligibleAfterPrune(s, cutoff, later);
    LoadsAfterPrune(s, cutoff, later, key);
    SamePick(s, Prune(s, cutoff), policy, key, later);
  }

  /** Equal routes, eligible backends and loads give equal picks. */
  ghost predicate Alike(s: State, t: State, key: string, later: int)
    requires WF(s) && WF(t)
  {
    && t.objs == s.objs && t.rr == s.rr && Eligible(t, later) == Eligible(s, later)
    && RouteBackend(t, key, later) == RouteBackend(s, key, later)
    && var fit := InNamespace(s.objs, Eligible(s, later), key);
       Loads(s.objs, fit, t.load) == Loads(s.objs, fit, s.load)
  }

  lemma SamePick(s: State, t: State, policy: Policy, key: string, later: int)
    requires WF(s) && WF(t) && Alike(s, t, key, later)
    ensures PickBackend(t, policy, key, later).1 == PickBackend(s, policy, key, later).1
    ensures PickBackend(t, policy, key, later).0.rr == PickBackend(s, policy, key, later).0.rr
  {
    SameRecord(s, t, policy, key, later);
    SameCounter(s, t, policy, key, later);
  }

  lemma SameFresh(s: State, t: State, policy: Policy, fit: seq<nat>)
    requires WF(s) && WF(t) && t.objs == s.objs && t.rr == s.rr && InRange(s.objs, fit)
    requires Loads(s.objs, fit, t.load) == Loads(s.objs, fit, s.load)
    ensures FreshChoice(t, policy, fit, t.load) == FreshChoice(s, policy, fit, s.load)
  {
  }

  lemma SameRecord(s: State, t: State, policy: Policy, key: string, later: int)
    requires WF(s) && WF(t) && Alike(s, t, key, later)
    ensures PickBackend(t, policy, key, later).1 == PickBackend(s, policy, key, later).1
  {
    PickIs(s, policy, key, later);
    PickIs(t, policy, key, later);
    SameFresh(s, t, policy, InNamespace(s.objs, Eligible(s, later), key));
  }

  lemma SameCounter(s: State, t: State, policy: Policy, key: string, later: int)
    requires WF(s) && WF(t) && Alike(s, t, key, later)
    ensures PickBackend(t, policy, key, later).0.rr == PickBackend(s, policy, key, later).0.rr
  {
    PickCounter(s, policy, key, later);
    PickCounter(t, policy, key, later);
  }

  lemma PickCounter(s: State, policy: Policy, key: string, cutoff: int)
    requires WF(s)
    ensures PickBackend(s, policy, key, cutoff).0.rr ==
            if RouteBackend(s, key, cutoff).Some? || policy == Sticky || InNamespace(s.objs, Eligible(s, cutoff), key) == []
            then s.rr else (s.rr + 1) % 0x1_0000_0000_0000_0000
  {
  }

  // ---------------------------------------------------------------- the exact condition for picks

  /** The choice among backends that fit, by the given counters. */
  function FreshChoice(s: State, policy: Policy, fit: seq<nat>, load: map<string, int>): Option<nat>
    requires WF(s) && InRange(s.objs, fit)
  {
    if fit == [] then None
    else if policy == Sticky then Some(fit[FirstMin(Loads(s.objs, fit, load))])
    else
      var i := RoundRobinIndex(s.rr, |fit|);
      if i.Some? then (RoundRobinInBounds(s.rr, |fit|); Some(fit[i.value])) else None
  }

  predicate Counted(s: State) {
    forall id | id in s.load :: s.load[id] >= 0
  }

  /** Whether the choice by least load moves when the counters of expired ids are dropped: some such
      id stands before the chosen one, or the chosen one has relays and is not such an id. */
  predicate LoadsMove(s: State, cutoff: int, fit: seq<nat>)
    requires WF(s) && InRange(s.objs, fit) && fit != []
  {
    var a := FirstMin(Loads(s.objs, fit, s.load));
    var expired := ExpiredIds(s, cutoff);
    exists i | 0 <= i < |fit| && s.objs[fit[i]].id in expired ::
      i < a || (s.objs[fit[a]].id !in expired && LoadOf(s.load, s.objs[fit[a]].id) > 0)
  }

  /** Whether a pruning changes what a pick would answer. */
  predicate PickMoves(s: State, cutoff: int, later: int, policy: Policy, key: string)
    requires WF(s)
  {
    var fit := InNamespace(s.objs, Eligible(s, later), key);
    if RouteCut(s, cutoff, later, key) then
      FreshChoice(s, policy, fit, s.load - ExpiredIds(s, cutoff)) != Some(s.routes[key])
    else
      RouteBackend(s, key, later).None? && policy == Sticky && fit != [] && LoadsMove(s, cutoff, fit)
  }

  /** Lowering some elements to zero moves the first least of a sequence of naturals iff one of them
      stands before it, or it is positive and not one of them. */
  lemma FirstMinLowered(xs: seq<int>, ys: seq<int>, low: seq<bool>)
    requires xs != [] && |ys| == |xs| == |low|
    requires forall i | 0 <= i < |xs| :: xs[i] >= 0 && ys[i] == if low[i] then 0 else xs[i]
    ensures var a := FirstMin(xs);
            FirstMin(ys) != a <==> exists i | 0 <= i < |xs| && low[i] :: i < a || (!low[a] && xs[a] > 0)
  {
    var a, b := FirstMin(xs), FirstMin(ys);
    assert xs[a] <= xs[b] && ys[b] <= ys[a];
  }

  lemma ChoiceMoves(s: State, cutoff: int, fit: seq<nat>)
    requires WF(s) && Counted(s) && InRange(s.objs, fit) && fit != []
    ensures var load' := s.load - ExpiredIds(s, cutoff);
            FirstMin(Loads(s.objs, fit, load')) != FirstMin(Loads(s.objs, fit, s.load)) <==> LoadsMove(s, cutoff, fit)
  {
    var expired := ExpiredIds(s, cutoff);
    var low := seq(|fit|, i requires 0 <= i < |fit| => s.objs[fit[i]].id in expired);
    FirstMinLowered(Loads(s.objs, fit, s.load), Loads(s.objs, fit, s.load - expired), low);
    assert forall i | 0 <= i < |fit| :: low[i] <==> s.objs[fit[i]].id in expired;
  }

  lemma PickIs(s: State, policy: Policy, key: string, cutoff: int)
    requires WF(s)
    ensures PickBackend(s, policy, key, cutoff).1 ==
            if RouteBackend(s, key, cutoff).Some? then RouteBackend(s, key, cutoff)
            else FreshChoice(s, policy, InNamespace(s.objs, Eligible(s, cutoff), key), s.load)
  {
  }

  /** Positions in `fit` tell its references apart. */
  predicate DistinctPositions(fit: seq<nat>) {
    forall i, j | 0 <= i < j < |fit| :: fit[i] != fit[j]
  }

  lemma {:induction false} KeepPositions(objs: seq<Backend>, refs: seq<nat>, p: Backend -> bool)
    requires InRange(objs, refs) && DistinctPositions(refs)
    ensures DistinctPositions(Keep(objs, refs, p))
  {
    if refs != [] {
      var n := |refs| - 1;
      KeepPositions(objs, refs[..n], p);
      var r := Keep(objs, refs[..n], p);
      forall i | 0 <= i < |r| ensures r[i] != refs[n] {
        assert r[i] in refs[..n];
      }
    }
  }

  lemma FreshMoves(s: State, cutoff: int, policy: Policy, fit: seq<nat>)
    requires WF(s) && Counted(s) && InRange(s.objs, fit) && DistinctPositions(fit)
    ensures FreshChoice(s, policy, fit, s.load - ExpiredIds(s, cutoff)) != FreshChoice(s, policy, fit, s.load)
       <==> policy == Sticky && fit != [] && LoadsMove(s, cutoff, fit)
  {
    if policy == Sticky && fit != [] {
      ChoiceMoves(s, cutoff, fit);
      var a, b := FirstMin(Loads(s.objs, fit, s.load)), FirstMin(Loads(s.objs, fit, s.load - ExpiredIds(s, cutoff)));
      assert a != b ==> fit[a] != fit[b];
    }
  }

  /** The exact condition for picks, with or without repeated ids. */
  lemma PickChangedByPrune(s: State, cutoff: int, later: int, policy: Policy, key: string)
    requires WF(s) && Counted(s) && DistinctPositions(s.backends) && cutoff <= later
    ensures WF(Prune(s, cutoff))
    ensures PickBackend(Prune(s, cutoff), policy, key, later).1 != PickBackend(s, policy, key, later).1
       <==> PickMoves(s, cutoff, later, policy, key)
  {
    var t := Prune(s, cutoff);
    var fit := InNamespace(s.objs, Eligible(s, later), key);
    RouteChangedByPrune(s, cutoff, later, key);
    EligibleAfterPrune(s, cutoff, later);
    PickIs(s, policy, key, later);
    PickIs(t, policy, key, later);
    KeepPositions(s.objs, s.backends, (b: Backend) => Alive(b, later));
    KeepPositions(s.objs, Eligible(s, later), (b: Backend) => NormalizeNamespace(b.namespace) == SplitTunnelKey(key).0);
    FreshMoves(s, cutoff, policy, fit);
  }
}
