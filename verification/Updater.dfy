/** The health-to-BGP loop: every tick feeds one probe result to the tracker and the tracker's
    verdict to the manager. Safety over every run, whatever the probes and the speaker do. */
module Updater {
  import opened Octets
  import opened Cidr
  import Rov
  import opened Bgpsec
  import opened Announce
  import Health

  datatype Tick = Tick(probe: Health.ProbeResult, world: World)

  datatype Setup = Setup(policy: Policy, failThreshold: int, recoverThreshold: int, routes: seq<Route>) {
    /** Configured routes originate from the signer's AS and carry no signature yet. */
    predicate Valid() {
      && policy.Valid()
      && forall i | 0 <= i < |routes| ::
           && routes[i].bgpsec.None?
           && (policy.signer.Some? ==> routes[i].localAsn == policy.signer.value.asn)
    }
  }

  datatype Node = Node(track: Health.Track, manager: State)

  ghost function Start(c: Setup): Node {
    Node(Health.COLD, State(c.routes, false, NoError, [], map[]))
  }

  ghost function TickStep(c: Setup, n: Node, t: Tick): Node
    requires Sane(t.world, |n.manager.routes|)
  {
    var track := Health.Step(c.failThreshold, c.recoverThreshold, n.track, t.probe.ok);
    Node(track, HealthStep(c.policy, n.manager, track.healthy, t.world))
  }

  predicate SaneTicks(c: Setup, ticks: seq<Tick>) {
    forall i | 0 <= i < |ticks| :: Sane(ticks[i].world, |c.routes|)
  }

  lemma StepKeepsCount(p: Policy, s: State, healthy: bool, w: World)
    requires Sane(w, |s.routes|)
    ensures |HealthStep(p, s, healthy, w).routes| == |s.routes|
  {
  }

  /** The node after a whole run of ticks. */
  ghost function Run(c: Setup, ticks: seq<Tick>): (n: Node)
    requires SaneTicks(c, ticks)
    ensures |n.manager.routes| == |c.routes|
  {
    if ticks == [] then Start(c)
    else
      var k := |ticks| - 1;
      var before := Run(c, ticks[..k]);
      StepKeepsCount(c.policy, before.manager,
                     Health.Step(c.failThreshold, c.recoverThreshold, before.track, ticks[k].probe.ok).healthy,
                     ticks[k].world);
      TickStep(c, before, ticks[k])
  }

  function Probes(ticks: seq<Tick>): (s: seq<bool>)
    ensures |s| == |ticks|
    ensures forall i | 0 <= i < |s| :: s[i] == ticks[i].probe.ok
  {
    seq(|ticks|, i requires 0 <= i < |ticks| => ticks[i].probe.ok)
  }

  // ---------------------------------------------------------------- the invariant

  /** A route without what preparation adds. */
  function Bare(r: Route): Route {
    r.(bgpsec := None, rov := None)
  }

  predicate SameBare(a: seq<Route>, b: seq<Route>) {
    |a| == |b| && forall i | 0 <= i < |a| :: Bare(a[i]) == Bare(b[i])
  }

  /** A verified signature over the route's own prefix, its origin AS and the target AS. */
  predicate SignedFor(p: Policy, r: Route) {
    && p.signer.Some? && r.bgpsec.Some? && EncodeNlri(r.prefix).Some?
    && var sig := r.bgpsec.value;
       && sig.prefix == r.prefix && sig.originAsn == r.localAsn && sig.targetAsn == p.targetAsn
       && sig.hashInput == HashInput(p.targetAsn, r.localAsn, EncodeNlri(r.prefix).value)
       && VerifyOrigin(p.signer.value, sig)
  }

  ghost predicate PassedGates(p: Policy, r: Route) {
    && (p.failClosed || p.rov.requireValid ==> Rov.Allowed(p.rov, r.prefix, r.localAsn))
    && (p.requireSign || (p.failClosed && p.signer.Some?) ==> SignedFor(p, r))
  }

  ghost predicate Inv(c: Setup, s: State) {
    && SameBare(s.routes, c.routes)
    && (s.announced ==> s.rib == Install(map[], s.routes) && forall i | 0 <= i < |s.routes| :: PassedGates(c.policy, s.routes[i]))
    && (!s.announced ==> s.rib == map[])
  }

  lemma PreparedPassed(p: Policy, r: Route, x: EcdsaResult)
    requires p.Valid() && (p.signer.Some? ==> r.localAsn == p.signer.value.asn)
    requires x.EcdsaPair? ==> x.r < P256_RANGE && x.s < P256_RANGE
    requires PrepareRoute(p, r, x).Some?
    ensures PassedGates(p, PrepareRoute(p, r, x).value) && Bare(PrepareRoute(p, r, x).value) == Bare(r)
  {
  }

  lemma {:induction false} InstallContents(rib: Rib, routes: seq<Route>)
    ensures Install(rib, routes).Keys == rib.Keys + set r | r in routes :: r.prefix
    ensures forall k | k in Install(rib, routes) && k !in rib ::
              Install(rib, routes)[k] in routes && Install(rib, routes)[k].prefix == k
  {
    if routes != [] {
      var n := |routes| - 1;
      InstallContents(rib, routes[..n]);
      assert routes == routes[..n] + [routes[n]];
      assert (set r | r in routes :: r.prefix) == (set r | r in routes[..n] :: r.prefix) + {routes[n].prefix};
    }
  }

  lemma WithdrawEmpties(routes: seq<Route>)
    ensures Remove(Install(map[], routes), routes) == map[]
  {
    InstallContents(map[], routes);
  }

  lemma StepKeepsInv(c: Setup, s: State, healthy: bool, w: World)
    requires c.Valid() && Inv(c, s) && Sane(w, |s.routes|)
    ensures Inv(c, HealthStep(c.policy, s, healthy, w))
  {
    WithdrawEmpties(s.routes);
    if healthy && !s.announced && Prepare(c.policy, s.routes, w).Some? {
      forall i | 0 <= i < |s.routes|
        ensures PassedGates(c.policy, Prepare(c.policy, s.routes, w).value[i])
        ensures Bare(Prepare(c.policy, s.routes, w).value[i]) == Bare(c.routes[i])
      {
        assert Bare(s.routes[i]) == Bare(c.routes[i]);
        PreparedPassed(c.policy, s.routes[i], w.ecdsa[i]);
      }
    }
  }

  /** Over every run: the flag agrees with the speaker, the configured prefixes never change, and
      the tracker is the hysteresis of the probe results. */
  lemma {:induction false} RunInv(c: Setup, ticks: seq<Tick>)
    requires c.Valid() && SaneTicks(c, ticks)
    ensures Inv(c, Run(c, ticks).manager)
    ensures Run(c, ticks).track == Health.Run(c.failThreshold, c.recoverThreshold, Probes(ticks))
  {
    if ticks != [] {
      var k := |ticks| - 1;
      RunInv(c, ticks[..k]);
      assert Probes(ticks)[..k] == Probes(ticks[..k]);
      var before := Run(c, ticks[..k]);
      StepKeepsInv(c, before.manager,
                   Health.Step(c.failThreshold, c.recoverThreshold, before.track, ticks[k].probe.ok).healthy,
                   ticks[k].world);
    }
  }

  /** Every route the speaker holds at any time is one of the configured prefixes and passed the
      gates that were required; it is withdrawn or announced as a whole. */
  lemma InstalledRoutesAreSafe(c: Setup, ticks: seq<Tick>, k: PrefixText)
    requires c.Valid() && SaneTicks(c, ticks)
    ensures var m := Run(c, ticks).manager;
            && (m.rib != map[] <==> m.announced && c.routes != [])
            && (k in m.rib <==> m.announced && exists i :: 0 <= i < |c.routes| && c.routes[i].prefix == k)
            && (k in m.rib ==> m.rib[k].prefix == k && PassedGates(c.policy, m.rib[k]))
  {
    var m := Run(c, ticks).manager;
    RunInv(c, ticks);
    InstallContents(map[], m.routes);
    assert forall i | 0 <= i < |c.routes| :: m.routes[i].prefix == Bare(m.routes[i]).prefix == Bare(c.routes[i]).prefix;
    if m.announced && exists i :: 0 <= i < |c.routes| && c.routes[i].prefix == k {
      var i :| 0 <= i < |c.routes| && c.routes[i].prefix == k;
      assert m.routes[i] in m.routes;
    }
    if k in m.rib {
      var r := m.rib[k];
      var i :| 0 <= i < |m.routes| && m.routes[i] == r;
      assert PassedGates(c.policy, m.routes[i]);
    }
    if m.announced && c.routes != [] {
      assert m.routes[0] in m.routes;
      assert m.routes[0].prefix in m.rib;
    }
  }

  /** Two different installed signatures never cover the same octets: the signed hash input of an
      installed route determines its origin, target and canonical prefix. */
  lemma InstalledSignatureBinds(p: Policy, r: Route, r': Route)
    requires SignedFor(p, r) && SignedFor(p, r') && r.prefix.Parsed? && r'.prefix.Parsed?
    ensures r.bgpsec.value.hashInput == r'.bgpsec.value.hashInput
       <==> r.localAsn == r'.localAsn && Network(r.prefix.prefix) == Network(r'.prefix.prefix)
  {
    HashInputInjective(p.targetAsn, r.localAsn, r.prefix.prefix, p.targetAsn, r'.localAsn, r'.prefix.prefix);
  }

  // ---------------------------------------------------------------- what one tick decides

  ghost predicate AnnounceSucceeds(c: Setup, s: State, w: World)
    requires Sane(w, |s.routes|)
  {
    && Prepare(c.policy, s.routes, w).Some?
    && (c.policy.exportsSignatures && c.policy.failClosed ==> w.exportOk)
    && w.announceOk
  }

  /** At the end of a tick: announced while unhealthy exactly if this tick's withdraw failed;
      announced while healthy exactly if it already was or this tick's attempt succeeded. */
  lemma TickDecides(c: Setup, ticks: seq<Tick>)
    requires c.Valid() && SaneTicks(c, ticks) && ticks != []
    ensures var before := Run(c, ticks[..|ticks| - 1]).manager;
            var after := Run(c, ticks);
            var w := ticks[|ticks| - 1].world;
            after.manager.announced <==>
              if after.track.healthy then before.announced || AnnounceSucceeds(c, before, w)
              else before.announced && !w.withdrawOk
  {
  }

  /** After any run that ended with a cooperative speaker, routes are installed only while the
      window definition of health holds. */
  lemma InstalledOnlyWhileHealthy(c: Setup, ticks: seq<Tick>)
    requires c.Valid() && SaneTicks(c, ticks)
    requires Run(c, ticks).manager.rib != map[]
    ensures || Health.WindowHealthy(c.failThreshold, c.recoverThreshold, Probes(ticks))
            || (ticks != [] && !ticks[|ticks| - 1].world.withdrawOk)
  {
    RunInv(c, ticks);
    Health.HealthIsWindowed(c.failThreshold, c.recoverThreshold, Probes(ticks));
    if ticks != [] {
      TickDecides(c, ticks);
    }
  }

  /** Fail threshold reached: after F failed probes in a row nothing stays installed unless the
      speaker refuses the withdrawal. */
  lemma OutageWithdraws(c: Setup, ticks: seq<Tick>)
    requires c.Valid() && SaneTicks(c, ticks) && Health.AtLeastOne(c.failThreshold) <= |ticks|
    requires Health.EndsWith(Probes(ticks), Health.AtLeastOne(c.failThreshold), false)
    requires ticks[|ticks| - 1].world.withdrawOk
    ensures Run(c, ticks).manager.rib == map[]
  {
    RunInv(c, ticks);
    var s := Probes(ticks);
    var n := Health.AtLeastOne(c.failThreshold);
    Health.CountersAreRuns(c.failThreshold, c.recoverThreshold, s, n);
    UnhealthyAtThreshold(c.failThreshold, c.recoverThreshold, s);
    TickDecides(c, ticks);
  }

  lemma UnhealthyAtThreshold(f: int, r: int, s: seq<bool>)
    requires s != [] && Health.Run(f, r, s).failCount >= Health.AtLeastOne(f)
    ensures !Health.Run(f, r, s).healthy
  {
  }

  // ---------------------------------------------------------------- shutdown

  /** The shutdown path withdraws twice: directly, and again when the manager closes. */
  ghost function Shutdown(s: State, first: bool, second: bool): State {
    ForceStep(ForceStep(s, first), second)
  }

  lemma SameBarePrefixes(a: seq<Route>, b: seq<Route>)
    requires SameBare(a, b)
    ensures (set r | r in a :: r.prefix) <= (set r | r in b :: r.prefix)
  {
    forall r | r in a ensures r.prefix in (set r' | r' in b :: r'.prefix) {
      var i :| 0 <= i < |a| && a[i] == r;
      assert Bare(a[i]).prefix == Bare(b[i]).prefix;
      assert b[i] in b;
    }
  }

  lemma RemoveSamePrefixes(rib: Rib, a: seq<Route>, b: seq<Route>)
    requires SameBare(a, b)
    ensures Remove(rib, a) == Remove(rib, b)
  {
    SameBarePrefixes(a, b);
    SameBarePrefixes(b, a);
  }

  /** Shutdown always clears the flag. The speaker is left empty exactly when nothing was
      installed or one of the two withdrawals succeeded, and is otherwise unchanged. */
  lemma ShutdownLeaves(c: Setup, ticks: seq<Tick>, first: bool, second: bool)
    requires c.Valid() && SaneTicks(c, ticks)
    ensures var m := Run(c, ticks).manager;
            var end := Shutdown(m, first, second);
            && !end.announced && SameBare(end.routes, c.routes)
            && end.rib == if first || second then map[] else m.rib
  {
    var m := Run(c, ticks).manager;
    RunInv(c, ticks);
    WithdrawEmpties(m.routes);
    var mid := ForceStep(m, first);
    assert SameBare(mid.routes, m.routes);
    RemoveSamePrefixes(mid.rib, mid.routes, m.routes);
    assert Remove(map[], mid.routes) == map[];
  }

  // ---------------------------------------------------------------- the loop

  class Loop {
    const setup: Setup
    const tracker: Health.Tracker
    const speaker: Speaker
    const manager: Manager

    ghost predicate Valid()
      reads this, tracker, manager, speaker
    {
      && setup.Valid() && tracker.Valid()
      && tracker.failThreshold == setup.failThreshold && tracker.recoverThreshold == setup.recoverThreshold
      && manager.policy == setup.policy && manager.speaker == speaker
    }

    ghost function Abs(): Node
      reads this, tracker, manager, speaker
    {
      Node(Health.Track(tracker.failCount, tracker.recoverCount, tracker.healthy),
           State(manager.routes, manager.announced, manager.lastErr, manager.lastSigs, speaker.rib))
    }

    constructor (policy: Policy, failThreshold: int, recoverThreshold: int, prefixes: seq<PrefixText>,
                 nextHop: string, localAsn: U32Nat, peerAsn: U32Nat, communities: seq<string>)
      requires policy.Valid() && (policy.signer.Some? ==> policy.signer.value.asn == localAsn)
      ensures Valid() && fresh(tracker) && fresh(manager) && fresh(speaker)
      ensures setup == Setup(policy, failThreshold, recoverThreshold,
                             Configured(prefixes, nextHop, localAsn, peerAsn, communities))
      ensures Abs() == Run(setup, [])
    {
      setup := Setup(policy, failThreshold, recoverThreshold,
                     Configured(prefixes, nextHop, localAsn, peerAsn, communities));
      var t := new Health.Tracker(failThreshold, recoverThreshold);
      var sp := new Speaker();
      tracker := t;
      speaker := sp;
      manager := new Manager(policy, sp, prefixes, nextHop, localAsn, peerAsn, communities);
    }

    method OneTick(t: Tick)
      requires Valid() && Sane(t.world, |manager.routes|)
      modifies tracker, manager, speaker
      ensures Valid() && Abs() == TickStep(setup, old(Abs()), t)
    {
      var healthy, changed := tracker.Observe(t.probe);
      assert tracker.healthy == Health.Step(setup.failThreshold, setup.recoverThreshold, old(Abs()).track, t.probe.ok).healthy by {
        assert tracker.trace[..|tracker.trace| - 1] == old(tracker.trace);
      }
      var err := manager.SetHealthy(healthy, t.world);
      assert manager.Abs() == Abs().manager;
      assert old(manager.Abs()) == old(Abs()).manager;
    }

    /** Ticks until the context is cancelled, then the shutdown path. */
    method RunUntilCancelled(ticks: seq<Tick>, first: bool, second: bool)
      requires Valid() && SaneTicks(setup, ticks) && Abs() == Run(setup, [])
      modifies tracker, manager, speaker
      ensures Abs().manager == Shutdown(Run(setup, ticks).manager, first, second)
      ensures !manager.announced && (first || second ==> speaker.rib == map[])
    {
      for i := 0 to |ticks|
        invariant Valid() && Abs() == Run(setup, ticks[..i])
      {
        assert ticks[..i + 1][..i] == ticks[..i];
        OneTick(ticks[i]);
      }
      assert ticks[..|ticks|] == ticks;
      assert manager.Abs() == Abs().manager;
      var e1 := manager.ForceWithdraw(first);
      var e2 := manager.ForceWithdraw(second);
      assert manager.Abs() == Abs().manager;
      ShutdownLeaves(setup, ticks, first, second);
    }
  }
}
