/** How the two assignment policies share fresh connections over fixed backends. */
module Balanced {
  import opened TunnelKey
  import opened LbState

  /** A connection that is picked, routed and counted with nothing in between. */
  function Connect(s: State, policy: Policy, key: string, cutoff: int): (State, Option<nat>)
    requires WF(s)
  {
    var p := PickBackend(s, policy, key, cutoff);
    if p.1.None? || p.1.value >= |s.objs| then (p.0, None)
    else (IncLoad(AddRoute(p.0, key, p.1.value), s.objs[p.1.value].id), p.1)
  }

  lemma ConnectKeeps(s: State, policy: Policy, key: string, cutoff: int)
    requires WF(s)
    ensures var c := Connect(s, policy, key, cutoff).0;
            WF(c) && c.objs == s.objs && c.backends == s.backends && c.routes.Keys <= s.routes.Keys + {key}
  {
  }

  /** The state after connecting `keys` in order, and the backends they were given. */
  function ConnectAll(s: State, policy: Policy, keys: seq<string>, cutoff: int): (r: (State, seq<Option<nat>>))
    requires WF(s)
    ensures WF(r.0) && r.0.objs == s.objs && r.0.backends == s.backends && |r.1| == |keys|
  {
    if keys == [] then (s, [])
    else
      var n := |keys| - 1;
      var before := ConnectAll(s, policy, keys[..n], cutoff);
      var c := Connect(before.0, policy, keys[n], cutoff);
      ConnectKeeps(before.0, policy, keys[n], cutoff);
      (c.0, before.1 + [c.1])
  }

  /** The last connection follows the others. */
  lemma ConnectLast(s: State, policy: Policy, keys: seq<string>, cutoff: int)
    requires WF(s) && keys != []
    ensures var n := |keys| - 1;
            var before := ConnectAll(s, policy, keys[..n], cutoff);
            var c := Connect(before.0, policy, keys[n], cutoff);
            ConnectAll(s, policy, keys, cutoff) == (c.0, before.1 + [c.1])
  {
  }

  /** A connection whose pick is known. */
  lemma ConnectIs(t: State, policy: Policy, key: string, cutoff: int, t': State, r: nat)
    requires WF(t) && PickBackend(t, policy, key, cutoff) == (t', Some(r)) && r < |t.objs|
    ensures Connect(t, policy, key, cutoff) == (IncLoad(AddRoute(t', key, r), t.objs[r].id), Some(r))
  {
  }

  predicate GivenTurn(given: seq<Option<nat>>, fit: seq<nat>, c: nat, j: nat)
    requires fit != [] && j < |given|
  {
    given[j] == Some(Turn(fit, c + j))
  }

  /** Connections are given the backends of `fit` in turn, the first one at position `c`. */
  predicate InTurn(given: seq<Option<nat>>, fit: seq<nat>, c: nat)
    requires fit != []
  {
    forall j | 0 <= j < |given| :: GivenTurn(given, fit, c, j)
  }

  /** The backend at position `x`, counted round. */
  function Turn(fit: seq<nat>, x: nat): (r: nat)
    requires fit != []
    ensures r in fit
  {
    if x < |fit| then fit[x] else Turn(fit, x - |fit|)
  }

  lemma {:induction false} TurnIs(fit: seq<nat>, x: nat)
    requires fit != []
    ensures Turn(fit, x) == fit[x % |fit|]
  {
    var k := |fit|;
    if x < k {
      DivMod(x, k, 0, x);
    } else {
      TurnIs(fit, x - k);
      Quotient(x - k, k);
      Step((x - k) / k, k);
      DivMod(x, k, (x - k) / k + 1, (x - k) % k);
    }
  }

  /** Fresh keys of one namespace whose eligible backends are `fit`. */
  ghost predicate Fresh(s: State, keys: seq<string>, cutoff: int, fit: seq<nat>)
    requires WF(s)
  {
    && Distinct(s)
    && (forall i, j | 0 <= i < j < |keys| :: keys[i] != keys[j])
    && (forall i | 0 <= i < |keys| :: keys[i] !in s.routes && InNamespace(s.objs, Eligible(s, cutoff), keys[i]) == fit)
    && fit != [] && InRange(s.objs, fit)
  }

  /** The eligible backends have distinct ids, since the list has. */
  lemma FitIsDistinct(s: State, key: string, cutoff: int)
    requires WF(s) && Distinct(s)
    ensures DistinctRefs(s.objs, InNamespace(s.objs, Eligible(s, cutoff), key))
  {
    KeepDistinct(s.objs, s.backends, (b: Backend) => Alive(b, cutoff));
    KeepDistinct(s.objs, Eligible(s, cutoff), (b: Backend) => NormalizeNamespace(b.namespace) == SplitTunnelKey(key).0);
  }

  lemma {:induction false} RoutesOfKeys(s: State, policy: Policy, keys: seq<string>, cutoff: int)
    requires WF(s)
    ensures forall k | k in ConnectAll(s, policy, keys, cutoff).0.routes :: k in s.routes || k in keys
  {
    if keys != [] {
      var n := |keys| - 1;
      RoutesOfKeys(s, policy, keys[..n], cutoff);
      ConnectKeeps(ConnectAll(s, policy, keys[..n], cutoff).0, policy, keys[n], cutoff);
      assert keys == keys[..n] + [keys[n]];
    }
  }

  lemma FreshPrefix(s: State, keys: seq<string>, cutoff: int, fit: seq<nat>)
    requires WF(s) && keys != [] && Fresh(s, keys, cutoff, fit)
    ensures Fresh(s, keys[..|keys| - 1], cutoff, fit)
    ensures keys[|keys| - 1] !in keys[..|keys| - 1]
  {
  }

  /** A fresh connection goes through the policy's choice, from the state its predecessors left. */
  lemma NextIsChosen(s: State, policy: Policy, keys: seq<string>, cutoff: int, fit: seq<nat>)
    requires WF(s) && keys != [] && Fresh(s, keys, cutoff, fit)
    ensures Fresh(s, keys[..|keys| - 1], cutoff, fit)
    ensures var key := keys[|keys| - 1];
            var t := ConnectAll(s, policy, keys[..|keys| - 1], cutoff).0;
            && PickBackend(t, policy, key, cutoff) == Choose(t, policy, key, Eligible(s, cutoff))
            && InNamespace(t.objs, Eligible(s, cutoff), key) == fit
    ensures DistinctRefs(s.objs, fit)
  {
    var n := |keys| - 1;
    FitIsDistinct(s, keys[n], cutoff);
    FreshPrefix(s, keys, cutoff, fit);
    RoutesOfKeys(s, policy, keys[..n], cutoff);
    var t := ConnectAll(s, policy, keys[..n], cutoff).0;
    assert keys[n] !in t.routes;
    Unrouted(s, t, policy, keys[n], cutoff);
  }

  lemma Unrouted(s: State, t: State, policy: Policy, key: string, cutoff: int)
    requires WF(s) && WF(t) && t.objs == s.objs && t.backends == s.backends && key !in t.routes
    ensures PickBackend(t, policy, key, cutoff) == Choose(t, policy, key, Eligible(s, cutoff))
  {
  }

  // ---------------------------------------------------------------- least loaded

  /** The share of backend `i` of `k` after `n` connections handed out in turn. */
  function Share(n: nat, k: nat, i: nat): nat
    requires k > 0
  {
    n / k + if i < n % k then 1 else 0
  }

  lemma ShareStep(n: nat, k: nat, i: nat)
    requires i < k
    ensures Share(n + 1, k, i) == Share(n, k, i) + if i == n % k then 1 else 0
  {
    var q, r := n / k, n % k;
    Quotient(n, k);
    if r + 1 < k {
      DivMod(n + 1, k, q, r + 1);
    } else {
      Step(q, k);
      DivMod(n + 1, k, q + 1, 0);
    }
  }

  lemma MulOrder(a: int, b: int, k: nat)
    requires a < b
    ensures a * k + k <= b * k
  {
    assert b * k - a * k == (b - a) * k;
    assert (b - a) * k == k + (b - a - 1) * k;
    assert (b - a - 1) * k >= 0;
  }

  lemma DivMod(n: int, k: nat, q: int, r: nat)
    requires r < k && n == q * k + r
    ensures n / k == q && n % k == r
  {
    Quotient(n, k);
    Unique(k, n / k, n % k, q, r);
  }

  lemma Quotient(n: int, k: nat)
    requires k > 0
    ensures n == (n / k) * k + n % k && 0 <= n % k < k
  {
  }

  lemma Unique(k: nat, q: int, r: nat, q': int, r': nat)
    requires r < k && r' < k && q * k + r == q' * k + r'
    ensures q == q' && r == r'
  {
    if q < q' {
      MulOrder(q, q', k);
      assert false;
    } else if q' < q {
      MulOrder(q', q, k);
      assert false;
    }
  }

  lemma FirstOfShares(xs: seq<int>, n: nat)
    requires xs != [] && forall i | 0 <= i < |xs| :: xs[i] == Share(n, |xs|, i)
    ensures FirstMin(xs) == n % |xs|
  {
    var r := n % |xs|;
    assert 0 <= r < |xs|;
    assert xs[r] == n / |xs|;
  }

  ghost predicate Shared(objs: seq<Backend>, fit: seq<nat>, load: map<string, int>, n: nat)
    requires InRange(objs, fit)
  {
    forall i | 0 <= i < |fit| :: LoadOf(load, objs[fit[i]].id) == Share(n, |fit|, i)
  }

  lemma SharedStep(objs: seq<Backend>, fit: seq<nat>, load: map<string, int>, n: nat)
    requires InRange(objs, fit) && DistinctRefs(objs, fit) && fit != [] && Shared(objs, fit, load, n)
    ensures var id := objs[Turn(fit, n)].id; Shared(objs, fit, load[id := LoadOf(load, id) + 1], n + 1)
  {
    TurnIs(fit, n);
    var c := n % |fit|;
    var id := objs[fit[c]].id;
    forall i | 0 <= i < |fit|
      ensures LoadOf(load[id := LoadOf(load, id) + 1], objs[fit[i]].id) == Share(n + 1, |fit|, i)
    {
      ShareStep(n, |fit|, i);
      if i != c {
        assert objs[fit[i]].id != objs[fit[c]].id;
      }
    }
  }

  lemma ChooseLeast(t: State, key: string, cands: seq<nat>, fit: seq<nat>, n: nat)
    requires WF(t) && InRange(t.objs, cands) && InNamespace(t.objs, cands, key) == fit
    requires fit != [] && InRange(t.objs, fit) && Shared(t.objs, fit, t.load, n)
    ensures Choose(t, Sticky, key, cands) == (t, Some(Turn(fit, n)))
  {
    var ls := Loads(t.objs, fit, t.load);
    FirstOfShares(ls, n);
    TurnIs(fit, n);
  }

  lemma ConnectSticky(t: State, key: string, cutoff: int, cands: seq<nat>, fit: seq<nat>, n: nat)
    requires WF(t) && InRange(t.objs, cands)
    requires PickBackend(t, Sticky, key, cutoff) == Choose(t, Sticky, key, cands)
    requires InNamespace(t.objs, cands, key) == fit
    requires fit != [] && InRange(t.objs, fit) && DistinctRefs(t.objs, fit) && Shared(t.objs, fit, t.load, n)
    ensures Connect(t, Sticky, key, cutoff).1 == Some(Turn(fit, 0 + n))
    ensures Shared(t.objs, fit, Connect(t, Sticky, key, cutoff).0.load, n + 1)
  {
    ChooseLeast(t, key, cands, fit, n);
    ConnectIs(t, Sticky, key, cutoff, t, Turn(fit, n));
    SharedStep(t.objs, fit, t.load, n);
  }

  lemma {:induction false} SharesAfter(s: State, keys: seq<string>, cutoff: int, fit: seq<nat>)
    requires WF(s) && Fresh(s, keys, cutoff, fit) && Unloaded(s, fit)
    ensures Shared(s.objs, fit, ConnectAll(s, Sticky, keys, cutoff).0.load, |keys|)
  {
    if keys == [] {
      ZeroIsShared(s, fit);
    } else {
      var n := |keys| - 1;
      NextIsChosen(s, Sticky, keys, cutoff, fit);
      SharesAfter(s, keys[..n], cutoff, fit);
      ConnectLast(s, Sticky, keys, cutoff);
      ConnectSticky(ConnectAll(s, Sticky, keys[..n], cutoff).0, keys[n], cutoff, Eligible(s, cutoff), fit, n);
    }
  }

  lemma LastSticky(s: State, keys: seq<string>, cutoff: int, fit: seq<nat>)
    returns (given: seq<Option<nat>>, r: Option<nat>)
    requires WF(s) && keys != [] && Fresh(s, keys, cutoff, fit) && Unloaded(s, fit)
    ensures given == ConnectAll(s, Sticky, keys[..|keys| - 1], cutoff).1
    ensures ConnectAll(s, Sticky, keys, cutoff).1 == given + [r]
    ensures r == Some(Turn(fit, 0 + (|keys| - 1)))
  {
    var n := |keys| - 1;
    var before := ConnectAll(s, Sticky, keys[..n], cutoff);
    NextIsChosen(s, Sticky, keys, cutoff, fit);
    SharesAfter(s, keys[..n], cutoff, fit);
    ConnectLast(s, Sticky, keys, cutoff);
    ConnectSticky(before.0, keys[n], cutoff, Eligible(s, cutoff), fit, n);
    given, r := before.1, Connect(before.0, Sticky, keys[n], cutoff).1;
  }

  lemma {:induction false} TurnAt(s: State, keys: seq<string>, cutoff: int, fit: seq<nat>, j: nat)
    requires WF(s) && Fresh(s, keys, cutoff, fit) && Unloaded(s, fit) && j < |keys|
    ensures ConnectAll(s, Sticky, keys, cutoff).1[j] == Some(Turn(fit, 0 + j))
  {
    var given, r := LastSticky(s, keys, cutoff, fit);
    LastOf(given, r, j, |keys| - 1);
    if j < |keys| - 1 {
      FreshPrefix(s, keys, cutoff, fit);
      TurnAt(s, keys[..|keys| - 1], cutoff, fit, j);
    }
  }

  lemma TurnsAfter(s: State, keys: seq<string>, cutoff: int, fit: seq<nat>)
    requires WF(s) && Fresh(s, keys, cutoff, fit) && Unloaded(s, fit)
    ensures InTurn(ConnectAll(s, Sticky, keys, cutoff).1, fit, 0)
  {
    var given := ConnectAll(s, Sticky, keys, cutoff).1;
    forall j | 0 <= j < |given| ensures GivenTurn(given, fit, 0, j) {
      TurnAt(s, keys, cutoff, fit, j);
    }
  }

  /** No eligible backend has open relays counted. */
  predicate Unloaded(s: State, fit: seq<nat>) {
    InRange(s.objs, fit) && forall j | 0 <= j < |fit| :: LoadOf(s.load, s.objs[fit[j]].id) == 0
  }

  lemma ZeroIsShared(s: State, fit: seq<nat>)
    requires Unloaded(s, fit)
    ensures Shared(s.objs, fit, s.load, 0)
  {
    forall j | 0 <= j < |fit| ensures Share(0, |fit|, j) == 0 {
      ShareBounds(0, |fit|, j);
    }
  }

  /** From zero loads, the least-loaded policy deals connections out in turn: connection `j` goes
      to backend `j % k`, and each backend holds the floor or the ceiling of n / k. */
  lemma LeastLoadedIsBalanced(s: State, keys: seq<string>, cutoff: int, fit: seq<nat>)
    requires WF(s) && Fresh(s, keys, cutoff, fit) && Unloaded(s, fit)
    ensures var r := ConnectAll(s, Sticky, keys, cutoff);
            InTurn(r.1, fit, 0) && Shared(s.objs, fit, r.0.load, |keys|)
  {
    TurnsAfter(s, keys, cutoff, fit);
    SharesAfter(s, keys, cutoff, fit);
  }

  /** `x` is the floor or the ceiling of n / k. */
  predicate Fair(n: nat, k: nat, x: int)
    requires k > 0
  {
    n / k <= x <= (n + k - 1) / k
  }

  /** Zero loads are the shares of no connections, and every share is one of the two bounds. */
  lemma ShareBounds(n: nat, k: nat, i: nat)
    requires i < k
    ensures Share(0, k, i) == 0
    ensures Fair(n, k, Share(n, k, i))
  {
    var q, r := n / k, n % k;
    Quotient(n, k);
    DivMod(0, k, 0, 0);
    Ceiling(n, k, q, r);
  }

  lemma Ceiling(n: nat, k: nat, q: nat, r: nat)
    requires r < k && n == q * k + r
    ensures (n + k - 1) / k == if r > 0 then q + 1 else q
  {
    if r > 0 {
      Step(q, k);
      DivMod(n + k - 1, k, q + 1, r - 1);
    } else {
      DivMod(n + k - 1, k, q, k - 1);
    }
  }

  // ---------------------------------------------------------------- round robin

  /** How many of the `n` counter values from `c` on select index `i` of `k`. */
  function Hits(c: nat, n: nat, k: nat, i: nat): nat
    requires k > 0
  {
    if n == 0 then 0 else Hits(c, n - 1, k, i) + if (c + n - 1) % k == i then 1 else 0
  }

  /** The same count, directly: the first hit is `d` values in, and every k-th one after it. */
  lemma {:induction false} HitsClosed(c: nat, n: nat, k: nat, i: nat)
    requires i < k
    ensures Hits(c, n, k, i) == (n + k - 1 - (i - c) % k) / k
  {
    var d := (i - c) % k;
    Quotient(i - c, k);
    if n == 0 {
      DivMod(k - 1 - d, k, 0, k - 1 - d);
    } else {
      HitsClosed(c, n - 1, k, i);
      HitStep(c + n - 1, n - 1 + k - 1 - d, k, i, (i - c) / k);
    }
  }

  /** The quotient of `t` steps up exactly when `x` hits. */
  lemma HitStep(x: int, t: nat, k: nat, i: nat, w: int)
    requires i < k && x == i + (t + 1 - k) - w * k
    ensures (t + 1) / k == t / k + if x % k == i then 1 else 0
  {
    var q, r := t / k, t % k;
    Quotient(t, k);
    if r == k - 1 {
      Step(q, k);
      DivMod(t + 1, k, q + 1, 0);
      Less(q, w, k);
      DivMod(x, k, q - w, i);
    } else {
      DivMod(t + 1, k, q, r + 1);
      Less(q, w, k);
      NotHit(x, k, i, q - w, r);
    }
  }

  lemma Step(q: int, k: int)
    ensures (q + 1) * k == q * k + k
  {
  }

  lemma Less(q: int, w: int, k: int)
    ensures (q - w) * k == q * k - w * k
  {
  }

  lemma NotHit(x: int, k: nat, i: nat, a: int, r: nat)
    requires i < k && r < k - 1 && x == a * k + i + r - (k - 1)
    ensures x % k != i
  {
    if i + r - (k - 1) >= 0 {
      DivMod(x, k, a, i + r - (k - 1));
    } else {
      Less(a, 1, k);
      DivMod(x, k, a - 1, i + r + 1);
    }
  }

  /** Any window of n consecutive counter values gives each index the floor or the ceiling of n / k. */
  lemma WindowIsBalanced(c: nat, n: nat, k: nat, i: nat)
    requires i < k
    ensures Fair(n, k, Hits(c, n, k, i))
  {
    HitsClosed(c, n, k, i);
    DivOrder(n, n + k - 1 - (i - c) % k, k);
    DivOrder(n + k - 1 - (i - c) % k, n + k - 1, k);
  }

  lemma DivOrder(a: int, b: int, k: nat)
    requires k > 0 && a <= b
    ensures a / k <= b / k
  {
    Quotient(a, k);
    Quotient(b, k);
    if b / k < a / k {
      MulOrder(b / k, a / k, k);
      assert false;
    }
  }

  ghost predicate Dealt(objs: seq<Backend>, fit: seq<nat>, load0: map<string, int>, load: map<string, int>, c: nat, n: nat)
    requires InRange(objs, fit)
  {
    forall i | 0 <= i < |fit| ::
      LoadOf(load, objs[fit[i]].id) == LoadOf(load0, objs[fit[i]].id) + Hits(c, n, |fit|, i)
  }

  lemma DealtStep(objs: seq<Backend>, fit: seq<nat>, load0: map<string, int>, load: map<string, int>, c: nat, n: nat)
    requires InRange(objs, fit) && DistinctRefs(objs, fit) && fit != [] && Dealt(objs, fit, load0, load, c, n)
    ensures var id := objs[Turn(fit, c + n)].id; Dealt(objs, fit, load0, load[id := LoadOf(load, id) + 1], c, n + 1)
  {
    TurnIs(fit, c + n);
    var x := (c + n) % |fit|;
    var id := objs[fit[x]].id;
    forall i | 0 <= i < |fit|
      ensures LoadOf(load[id := LoadOf(load, id) + 1], objs[fit[i]].id)
           == LoadOf(load0, objs[fit[i]].id) + Hits(c, n + 1, |fit|, i)
    {
      if i != x {
        assert objs[fit[i]].id != objs[fit[x]].id;
      }
    }
  }

  lemma IndexBelow(rr: nat, n: nat)
    requires n > 0 && rr < 0x8000_0000_0000_0000
    ensures RoundRobinIndex(rr, n) == Some(rr % n)
  {
  }

  lemma CounterBelow(rr: nat)
    requires rr < 0x8000_0000_0000_0000
    ensures (rr + 1) % 0x1_0000_0000_0000_0000 == rr + 1
  {
  }

  lemma ChooseInTurn(t: State, key: string, cands: seq<nat>, fit: seq<nat>)
    requires WF(t) && InRange(t.objs, cands) && InNamespace(t.objs, cands, key) == fit && fit != []
    requires t.rr < 0x8000_0000_0000_0000
    ensures Choose(t, RoundRobin, key, cands) == (t.(rr := t.rr + 1), Some(Turn(fit, t.rr)))
  {
    IndexBelow(t.rr, |fit|);
    CounterBelow(t.rr);
    ChooseAt(t, key, cands, fit, t.rr % |fit|);
    TurnIs(fit, t.rr);
  }

  lemma ChooseAt(t: State, key: string, cands: seq<nat>, fit: seq<nat>, i: nat)
    requires WF(t) && InRange(t.objs, cands) && InNamespace(t.objs, cands, key) == fit && i < |fit|
    requires RoundRobinIndex(t.rr, |fit|) == Some(i)
    ensures Choose(t, RoundRobin, key, cands) == (t.(rr := (t.rr + 1) % 0x1_0000_0000_0000_0000), Some(fit[i]))
  {
  }

  /** The choice, the route and the counters, in one equation. */
  lemma RoundConnects(t: State, key: string, cutoff: int, cands: seq<nat>, fit: seq<nat>)
    requires WF(t) && InRange(t.objs, cands)
    requires PickBackend(t, RoundRobin, key, cutoff) == Choose(t, RoundRobin, key, cands)
    requires InNamespace(t.objs, cands, key) == fit && fit != [] && InRange(t.objs, fit) && t.rr < 0x8000_0000_0000_0000
    ensures var r := Turn(fit, t.rr);
            Connect(t, RoundRobin, key, cutoff) == (IncLoad(AddRoute(t.(rr := t.rr + 1), key, r), t.objs[r].id), Some(r))
  {
    ChooseInTurn(t, key, cands, fit);
    ConnectIs(t, RoundRobin, key, cutoff, t.(rr := t.rr + 1), Turn(fit, t.rr));
  }

  lemma ConnectRoundRobin(t: State, load0: map<string, int>, key: string, cutoff: int, cands: seq<nat>, fit: seq<nat>, c: nat, n: nat)
    requires WF(t) && InRange(t.objs, cands)
    requires PickBackend(t, RoundRobin, key, cutoff) == Choose(t, RoundRobin, key, cands)
    requires InNamespace(t.objs, cands, key) == fit
    requires fit != [] && InRange(t.objs, fit) && DistinctRefs(t.objs, fit)
    requires t.rr == c + n < 0x8000_0000_0000_0000 && Dealt(t.objs, fit, load0, t.load, c, n)
    ensures Connect(t, RoundRobin, key, cutoff).1 == Some(Turn(fit, c + n))
    ensures Connect(t, RoundRobin, key, cutoff).0.rr == c + n + 1
    ensures Dealt(t.objs, fit, load0, Connect(t, RoundRobin, key, cutoff).0.load, c, n + 1)
  {
    RoundConnects(t, key, cutoff, cands, fit);
    DealtStep(t.objs, fit, load0, t.load, c, n);
  }

  lemma {:induction false} DealtAfter(s: State, keys: seq<string>, cutoff: int, fit: seq<nat>)
    requires WF(s) && Fresh(s, keys, cutoff, fit) && s.rr + |keys| <= 0x8000_0000_0000_0000
    ensures var t := ConnectAll(s, RoundRobin, keys, cutoff).0;
            t.rr == s.rr + |keys| && Dealt(s.objs, fit, s.load, t.load, s.rr, |keys|)
  {
    if keys != [] {
      var n := |keys| - 1;
      NextIsChosen(s, RoundRobin, keys, cutoff, fit);
      DealtAfter(s, keys[..n], cutoff, fit);
      ConnectLast(s, RoundRobin, keys, cutoff);
      ConnectRoundRobin(ConnectAll(s, RoundRobin, keys[..n], cutoff).0, s.load, keys[n], cutoff, Eligible(s, cutoff), fit, s.rr, n);
    }
  }

  /** The last connection's backend, after those before it. */
  lemma LastTurn(s: State, keys: seq<string>, cutoff: int, fit: seq<nat>, n: nat, y: nat, before: State) returns (r: nat)
    requires WF(s) && |keys| == n + 1 && Fresh(s, keys, cutoff, fit) && s.rr + |keys| <= 0x8000_0000_0000_0000
    requires before == ConnectAll(s, RoundRobin, keys[..n], cutoff).0 && y == s.rr + n
    ensures Connect(before, RoundRobin, keys[n], cutoff).1 == Some(r) && r == Turn(fit, y)
  {
    NextIsChosen(s, RoundRobin, keys, cutoff, fit);
    DealtAfter(s, keys[..n], cutoff, fit);
    RoundConnects(before, keys[n], cutoff, Eligible(s, cutoff), fit);
    r := Turn(fit, y);
  }

  lemma LastGiven(s: State, keys: seq<string>, cutoff: int, n: nat, before: (State, seq<Option<nat>>), r: nat)
    requires WF(s) && |keys| == n + 1 && before == ConnectAll(s, RoundRobin, keys[..n], cutoff)
    requires Connect(before.0, RoundRobin, keys[n], cutoff).1 == Some(r)
    ensures ConnectAll(s, RoundRobin, keys, cutoff).1 == before.1 + [Some(r)]
  {
    ConnectLast(s, RoundRobin, keys, cutoff);
  }

  lemma LastRound(s: State, keys: seq<string>, cutoff: int, fit: seq<nat>, n: nat, y: nat)
    returns (given: seq<Option<nat>>, r: nat)
    requires WF(s) && |keys| == n + 1 && Fresh(s, keys, cutoff, fit) && s.rr + |keys| <= 0x8000_0000_0000_0000
    requires y == s.rr + n
    ensures given == ConnectAll(s, RoundRobin, keys[..n], cutoff).1 && r == Turn(fit, y)
    ensures ConnectAll(s, RoundRobin, keys, cutoff).1 == given + [Some(r)]
  {
    var before := ConnectAll(s, RoundRobin, keys[..n], cutoff);
    r := LastTurn(s, keys, cutoff, fit, n, y, before.0);
    LastGiven(s, keys, cutoff, n, before, r);
    given := before.1;
  }

  lemma GivenBefore(s: State, keys: seq<string>, cutoff: int, j: nat)
    requires WF(s) && j < |keys| - 1
    ensures ConnectAll(s, RoundRobin, keys, cutoff).1[j] == ConnectAll(s, RoundRobin, keys[..|keys| - 1], cutoff).1[j]
  {
    ConnectLast(s, RoundRobin, keys, cutoff);
  }

  lemma {:induction false} RoundAt(s: State, keys: seq<string>, cutoff: int, fit: seq<nat>, j: nat, x: nat)
    requires WF(s) && Fresh(s, keys, cutoff, fit) && s.rr + |keys| <= 0x8000_0000_0000_0000
    requires j < |keys| && x == s.rr + j
    ensures ConnectAll(s, RoundRobin, keys, cutoff).1[j] == Some(Turn(fit, x))
  {
    if j < |keys| - 1 {
      FreshPrefix(s, keys, cutoff, fit);
      RoundAt(s, keys[..|keys| - 1], cutoff, fit, j, x);
      GivenBefore(s, keys, cutoff, j);
    } else {
      var given, r := LastRound(s, keys, cutoff, fit, j, x);
      LastOf(given, Some(r), j, j);
    }
  }

  lemma LastOf(given: seq<Option<nat>>, r: Option<nat>, j: nat, n: nat)
    requires |given| == n && j <= n
    ensures (given + [r])[j] == if j < n then given[j] else r
  {
  }

  lemma RoundAfter(s: State, keys: seq<string>, cutoff: int, fit: seq<nat>, c: nat) returns (given: seq<Option<nat>>)
    requires WF(s) && Fresh(s, keys, cutoff, fit) && s.rr + |keys| <= 0x8000_0000_0000_0000 && c == s.rr
    ensures given == ConnectAll(s, RoundRobin, keys, cutoff).1 && InTurn(given, fit, c)
  {
    given := ConnectAll(s, RoundRobin, keys, cutoff).1;
    AllInTurn(s, keys, cutoff, fit, c, given);
  }

  lemma AllInTurn(s: State, keys: seq<string>, cutoff: int, fit: seq<nat>, c: nat, given: seq<Option<nat>>)
    requires WF(s) && Fresh(s, keys, cutoff, fit) && s.rr + |keys| <= 0x8000_0000_0000_0000 && c == s.rr
    requires given == ConnectAll(s, RoundRobin, keys, cutoff).1
    ensures InTurn(given, fit, c)
  {
    forall j: nat | j < |given| ensures GivenTurn(given, fit, c, j) {
      var r := RoundGives(s, keys, cutoff, fit, j, c + j);
      TurnGiven(given, fit, c, j, c + j, r);
    }
  }

  lemma RoundGives(s: State, keys: seq<string>, cutoff: int, fit: seq<nat>, j: nat, x: nat) returns (r: nat)
    requires WF(s) && Fresh(s, keys, cutoff, fit) && s.rr + |keys| <= 0x8000_0000_0000_0000
    requires j < |keys| && x == s.rr + j
    ensures ConnectAll(s, RoundRobin, keys, cutoff).1[j] == Some(r) && r == Turn(fit, x)
  {
    RoundAt(s, keys, cutoff, fit, j, x);
    r := Turn(fit, x);
  }

  lemma TurnGiven(given: seq<Option<nat>>, fit: seq<nat>, c: nat, j: nat, x: nat, r: nat)
    requires fit != [] && j < |given| && x == c + j && r == Turn(fit, x) && given[j] == Some(r)
    ensures GivenTurn(given, fit, c, j)
  {
  }

  /** From any counter value, so long as the window stays at or below 2^63, round-robin gives each
      backend the floor or the ceiling of n / k further connections. */
  lemma RoundRobinIsBalanced(s: State, keys: seq<string>, cutoff: int, fit: seq<nat>)
    requires WF(s) && Fresh(s, keys, cutoff, fit) && s.rr + |keys| <= 0x8000_0000_0000_0000
    ensures var r := ConnectAll(s, RoundRobin, keys, cutoff);
            && InTurn(r.1, fit, s.rr) && r.0.rr == s.rr + |keys|
            && Dealt(s.objs, fit, s.load, r.0.load, s.rr, |keys|)
  {
    var given := RoundAfter(s, keys, cutoff, fit, s.rr);
    DealtAfter(s, keys, cutoff, fit);
  }

  function Gained(s: State, policy: Policy, keys: seq<string>, cutoff: int, id: string): int
    requires WF(s)
  {
    LoadOf(ConnectAll(s, policy, keys, cutoff).0.load, id) - LoadOf(s.load, id)
  }

  /** What each backend gained under the least-loaded policy from zero loads. */
  lemma LeastLoadedIsFair(s: State, keys: seq<string>, cutoff: int, fit: seq<nat>, i: nat)
    requires WF(s) && Fresh(s, keys, cutoff, fit) && i < |fit|
    requires Unloaded(s, fit)
    ensures Fair(|keys|, |fit|, Gained(s, Sticky, keys, cutoff, s.objs[fit[i]].id))
  {
    LeastLoadedIsBalanced(s, keys, cutoff, fit);
    ShareBounds(|keys|, |fit|, i);
  }

  /** What each backend gained under round-robin from any loads. */
  lemma RoundRobinIsFair(s: State, keys: seq<string>, cutoff: int, fit: seq<nat>, i: nat)
    requires WF(s) && Fresh(s, keys, cutoff, fit) && i < |fit|
    requires s.rr + |keys| <= 0x8000_0000_0000_0000
    ensures Fair(|keys|, |fit|, Gained(s, RoundRobin, keys, cutoff, s.objs[fit[i]].id))
  {
    RoundRobinIsBalanced(s, keys, cutoff, fit);
    WindowIsBalanced(s.rr, |keys|, |fit|, i);
  }
}
