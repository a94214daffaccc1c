/** What it takes to announce: over every run, a healthy node announces exactly when no required
    gate refuses, and says why when one does. */
module Live {
  import opened Octets
  import opened Cidr
  import Rov
  import opened Bgpsec
  import opened Announce
  import opened Updater
  import Health

  // ---------------------------------------------------------------- the gates, from the configuration

  /** Origin validation lets the route pass, or is not required. */
  ghost predicate OriginPasses(p: Policy, r: Route) {
    Rov.Allowed(p.rov, r.prefix, r.localAsn) || !(p.failClosed || p.rov.requireValid)
  }

  /** Signing and the check of the fresh signature succeed: there is a key, a target, a prefix that
      has an NLRI, and ECDSA gives a pair that verifies over the octets of section 4.2 of RFC 8205. */
  ghost predicate SigningWorks(p: Policy, r: Route, x: EcdsaResult) {
    && p.signer.Some? && p.targetAsn != 0 && x.EcdsaPair?
    && r.prefix.Parsed? && !IsMapped(Network(r.prefix.prefix))
    && p.signer.value.verify(
         HashInput(p.targetAsn, p.signer.value.asn, EncodeNlri(r.prefix).value), x.r, x.s)
  }

  /** No signature is required, or there is one. */
  ghost predicate SigningPasses(p: Policy, r: Route, x: EcdsaResult) {
    if p.signer.None? then !p.requireSign
    else SigningWorks(p, r, x) || !(p.failClosed || p.requireSign)
  }

  ghost predicate Unobstructed(p: Policy, routes: seq<Route>, w: World)
    requires Sane(w, |routes|)
  {
    forall i | 0 <= i < |routes| :: OriginPasses(p, routes[i]) && SigningPasses(p, routes[i], w.ecdsa[i])
  }

  predicate ExportPasses(p: Policy, w: World) {
    p.exportsSignatures && p.failClosed ==> w.exportOk
  }

  // ---------------------------------------------------------------- one route

  lemma SignedAndChecked(s: Signer, prefix: PrefixText, targetAsn: U32Nat, x: EcdsaResult)
    requires x.EcdsaPair? ==> x.r < P256_RANGE && x.s < P256_RANGE
    ensures var sig := Signed(s, prefix, targetAsn, x);
            sig.Some? && VerifyOrigin(s, sig.value) <==>
              && targetAsn != 0 && x.EcdsaPair? && prefix.Parsed? && !IsMapped(Network(prefix.prefix))
              && s.verify(HashInput(targetAsn, s.asn, EncodeNlri(prefix).value), x.r, x.s)
  {
    if Signed(s, prefix, targetAsn, x).Some? {
      SelfCheckSeesThePair(s, prefix, targetAsn, x);
    }
  }

  /** A route is let through iff both gates pass; it then carries a signature iff signing works, the
      verdict of origin validation, and is otherwise as configured. */
  lemma RoutePasses(p: Policy, r: Route, x: EcdsaResult)
    requires p.Valid() && (p.signer.Some? ==> r.localAsn == p.signer.value.asn)
    requires x.EcdsaPair? ==> x.r < P256_RANGE && x.s < P256_RANGE
    ensures PrepareRoute(p, r, x).Some? <==> OriginPasses(p, r) && SigningPasses(p, r, x)
    ensures PrepareRoute(p, r, x).Some? ==> Carries(p, r, x, PrepareRoute(p, r, x).value)
  {
    if p.signer.Some? {
      SignedAndChecked(p.signer.value, r.prefix, p.targetAsn, x);
    }
  }

  ghost predicate Carries(p: Policy, r: Route, x: EcdsaResult, out: Route) {
    && Bare(out) == Bare(r) && out.rov == Some(Rov.Verdict(p.rov, r.prefix, r.localAsn))
    && (out.bgpsec.Some? <==> SigningWorks(p, r, x)) && (out.bgpsec.Some? ==> SignedFor(p, out))
  }

  // ---------------------------------------------------------------- one attempt

  /** The gates see only the configured part of a route. */
  lemma BareGates(p: Policy, r: Route, c: Route, x: EcdsaResult, out: Route)
    requires Bare(r) == Bare(c)
    ensures OriginPasses(p, r) <==> OriginPasses(p, c)
    ensures SigningPasses(p, r, x) <==> SigningPasses(p, c, x)
    ensures Carries(p, r, x, out) <==> Carries(p, c, x, out)
  {
    assert Bare(r).prefix == Bare(c).prefix && Bare(r).localAsn == Bare(c).localAsn;
  }

  lemma RoutePassesBare(c: Setup, r: Route, i: nat, x: EcdsaResult)
    requires c.Valid() && i < |c.routes| && Bare(r) == Bare(c.routes[i])
    requires x.EcdsaPair? ==> x.r < P256_RANGE && x.s < P256_RANGE
    ensures PrepareRoute(c.policy, r, x).Some? <==> OriginPasses(c.policy, c.routes[i]) && SigningPasses(c.policy, c.routes[i], x)
    ensures PrepareRoute(c.policy, r, x).Some? ==> Carries(c.policy, c.routes[i], x, PrepareRoute(c.policy, r, x).value)
  {
    assert Bare(r).localAsn == Bare(c.routes[i]).localAsn;
    RoutePasses(c.policy, r, x);
    if PrepareRoute(c.policy, r, x).Some? {
      BareGates(c.policy, r, c.routes[i], x, PrepareRoute(c.policy, r, x).value);
    } else {
      BareGates(c.policy, r, c.routes[i], x, r);
    }
  }

  lemma AllPass(c: Setup, routes: seq<Route>, w: World)
    requires c.Valid() && SameBare(routes, c.routes) && Sane(w, |routes|)
    ensures Prepare(c.policy, routes, w).Some? <==> Unobstructed(c.policy, c.routes, w)
    ensures Prepare(c.policy, routes, w).Some? ==>
              var out := Prepare(c.policy, routes, w).value;
              |out| == |c.routes| && forall i | 0 <= i < |out| :: Carries(c.policy, c.routes[i], w.ecdsa[i], out[i])
  {
    forall i | 0 <= i < |routes|
      ensures PrepareRoute(c.policy, routes[i], w.ecdsa[i]).Some?
         <==> OriginPasses(c.policy, c.routes[i]) && SigningPasses(c.policy, c.routes[i], w.ecdsa[i])
      ensures PrepareRoute(c.policy, routes[i], w.ecdsa[i]).Some? ==>
                Carries(c.policy, c.routes[i], w.ecdsa[i], PrepareRoute(c.policy, routes[i], w.ecdsa[i]).value)
    {
      assert Bare(routes[i]) == Bare(c.routes[i]);
      RoutePassesBare(c, routes[i], i, w.ecdsa[i]);
    }
  }

  lemma {:induction false} SignaturesAre(routes: seq<Route>)
    ensures forall sig :: sig in Signatures(routes) <==> exists i :: 0 <= i < |routes| && routes[i].bgpsec == Some(sig)
  {
    if routes != [] {
      var n := |routes| - 1;
      SignaturesAre(routes[..n]);
      forall sig ensures sig in Signatures(routes) <==> exists i :: 0 <= i < |routes| && routes[i].bgpsec == Some(sig) {
        if i :| 0 <= i < n && routes[..n][i].bgpsec == Some(sig) {
          assert routes[i].bgpsec == Some(sig);
        }
        if i :| 0 <= i < |routes| && routes[i].bgpsec == Some(sig) {
          assert i < n ==> routes[..n][i].bgpsec == Some(sig);
        }
      }
    }
  }

  function Prefixes(routes: seq<Route>): set<PrefixText> {
    set i | 0 <= i < |routes| :: routes[i].prefix
  }

  /** What an announced node holds: every configured route, as `w` let it through. */
  ghost predicate Holds(c: Setup, s: State, w: World)
    requires Sane(w, |c.routes|)
  {
    && s.announced && s.rib.Keys == Prefixes(c.routes) && |s.routes| == |c.routes|
    && (forall i | 0 <= i < |s.routes| :: Carries(c.policy, c.routes[i], w.ecdsa[i], s.routes[i]))
    && (forall k | k in s.rib :: s.rib[k] in s.routes && s.rib[k].prefix == k)
    && (forall sig :: sig in s.lastSigs <==> exists i :: 0 <= i < |s.routes| && s.routes[i].bgpsec == Some(sig))
  }

  lemma InstalledHolds(c: Setup, out: seq<Route>, w: World, s: State)
    requires |out| == |c.routes| && Sane(w, |c.routes|)
    requires forall i | 0 <= i < |out| :: Carries(c.policy, c.routes[i], w.ecdsa[i], out[i])
    requires s == State(out, true, NoError, Signatures(out), Install(map[], out))
    ensures Holds(c, s, w)
  {
    InstallContents(map[], out);
    SignaturesAre(out);
    forall i | 0 <= i < |out| ensures out[i].prefix == c.routes[i].prefix {
      assert Bare(out[i]) == Bare(c.routes[i]);
      assert Bare(out[i]).prefix == Bare(c.routes[i]).prefix;
    }
    SamePrefixes(out, c.routes);
  }

  lemma SamePrefixes(a: seq<Route>, b: seq<Route>)
    requires |a| == |b| && forall i | 0 <= i < |a| :: a[i].prefix == b[i].prefix
    ensures (set r | r in a :: r.prefix) == Prefixes(b)
  {
    forall k | k in Prefixes(b) ensures k in (set r | r in a :: r.prefix) {
      var i :| 0 <= i < |b| && b[i].prefix == k;
      assert a[i] in a;
    }
  }

  /** The first reason for which an attempt fails. */
  ghost function Refusal(c: Setup, w: World): LastError
    requires Sane(w, |c.routes|)
  {
    if !Unobstructed(c.policy, c.routes, w) then Blocked
    else if !ExportPasses(c.policy, w) then ExportFailed
    else if !w.announceOk then SpeakerFailed
    else NoError
  }

  lemma Attempt(c: Setup, s: State, w: World)
    requires c.Valid() && Inv(c, s) && !s.announced && Sane(w, |c.routes|) && |s.routes| == |c.routes|
    ensures var t := HealthStep(c.policy, s, true, w);
            && t.lastErr == Refusal(c, w)
            && if Refusal(c, w) == NoError then Holds(c, t, w) else !t.announced && t.rib == map[]
  {
    AllPass(c, s.routes, w);
    if Refusal(c, w) == NoError {
      InstalledHolds(c, Prepare(c.policy, s.routes, w).value, w, HealthStep(c.policy, s, true, w));
    }
  }

  // ---------------------------------------------------------------- over every run

  /** At the end of a tick after which the window definition of health holds: a node that was not
      announced attempts to, and then holds every configured prefix exactly when no required gate
      refuses; otherwise it holds nothing and says which gate refused first. A node that was announced
      stays as it is. */
  lemma HealthyTickAnnounces(c: Setup, ticks: seq<Tick>)
    requires c.Valid() && SaneTicks(c, ticks) && ticks != []
    requires Health.WindowHealthy(c.failThreshold, c.recoverThreshold, Probes(ticks))
    ensures var n := |ticks| - 1;
            var before := Run(c, ticks[..n]).manager;
            var after := Run(c, ticks).manager;
            if before.announced then after == before
            else
              && after.lastErr == Refusal(c, ticks[n].world)
              && if Refusal(c, ticks[n].world) == NoError then Holds(c, after, ticks[n].world)
                 else !after.announced && after.rib == map[]
  {
    var n := |ticks| - 1;
    RunInv(c, ticks[..n]);
    RunInv(c, ticks);
    Health.HealthIsWindowed(c.failThreshold, c.recoverThreshold, Probes(ticks));
    var before := Run(c, ticks[..n]).manager;
    if !before.announced {
      Attempt(c, before, ticks[n].world);
    }
  }

  /** One more tick after which the node is announced: it was before and nothing changed, or it was not
      and the tick let everything through. */
  lemma LastTick(c: Setup, ticks: seq<Tick>, before: State, after: State, w: World)
    requires c.Valid() && SaneTicks(c, ticks) && ticks != [] && after.announced
    requires before == Run(c, ticks[..|ticks| - 1]).manager && after == Run(c, ticks).manager
    requires w == ticks[|ticks| - 1].world
    ensures before.announced ==> after.routes == before.routes && after.rib == before.rib && after.lastSigs == before.lastSigs
    ensures !before.announced ==> Refusal(c, w) == NoError && Holds(c, after, w)
    ensures !before.announced ==> Health.WindowHealthy(c.failThreshold, c.recoverThreshold, Probes(ticks))
  {
    RunInv(c, ticks[..|ticks| - 1]);
    RunInv(c, ticks);
    Health.HealthIsWindowed(c.failThreshold, c.recoverThreshold, Probes(ticks));
    if before.announced {
      StaysAnnounced(c, before, Run(c, ticks).track.healthy, w);
    } else {
      Attempt(c, before, w);
    }
  }

  lemma HoldsStill(c: Setup, s: State, t: State, w: World)
    requires Sane(w, |c.routes|) && Holds(c, s, w) && t.announced
    requires t.routes == s.routes && t.rib == s.rib && t.lastSigs == s.lastSigs
    ensures Holds(c, t, w)
  {
  }

  /** Whenever a node is announced, it holds what some earlier tick let through: a healthy tick at
      which every gate passed, and since then nothing has changed. */
  lemma {:induction false} AnnouncedSince(c: Setup, ticks: seq<Tick>) returns (j: nat)
    requires c.Valid() && SaneTicks(c, ticks) && Run(c, ticks).manager.announced
    ensures j < |ticks| && Refusal(c, ticks[j].world) == NoError && Holds(c, Run(c, ticks).manager, ticks[j].world)
    ensures Health.WindowHealthy(c.failThreshold, c.recoverThreshold, Probes(ticks[..j + 1]))
  {
    assert ticks != [];
    var n := |ticks| - 1;
    var before, after := Run(c, ticks[..n]).manager, Run(c, ticks).manager;
    LastTick(c, ticks, before, after, ticks[n].world);
    if before.announced {
      j := AnnouncedSince(c, ticks[..n]);
      HoldsStill(c, before, after, ticks[j].world);
      assert ticks[..n][..j + 1] == ticks[..j + 1];
    } else {
      j := n;
      assert ticks[..n + 1] == ticks;
    }
  }

  lemma StaysAnnounced(c: Setup, s: State, healthy: bool, w: World)
    requires s.announced && Sane(w, |s.routes|) && HealthStep(c.policy, s, healthy, w).announced
    ensures var t := HealthStep(c.policy, s, healthy, w);
            t.routes == s.routes && t.rib == s.rib && t.lastSigs == s.lastSigs
  {
  }

  /** A node that is not announced keeps no signature on its routes. */
  lemma {:induction false} WithdrawnIsUnsigned(c: Setup, ticks: seq<Tick>)
    requires c.Valid() && SaneTicks(c, ticks) && !Run(c, ticks).manager.announced
    ensures forall i | 0 <= i < |c.routes| :: Run(c, ticks).manager.routes[i].bgpsec.None?
  {
    if ticks != [] {
      var n := |ticks| - 1;
      var before := Run(c, ticks[..n]).manager;
      if !before.announced {
        WithdrawnIsUnsigned(c, ticks[..n]);
      }
    }
  }

  /** An unhealthy tick withdraws everything, unless the speaker refuses; then nothing changes but the
      error. A node that holds nothing stays as it is. */
  lemma UnhealthyTickWithdraws(c: Setup, ticks: seq<Tick>)
    requires c.Valid() && SaneTicks(c, ticks) && ticks != []
    requires !Health.WindowHealthy(c.failThreshold, c.recoverThreshold, Probes(ticks))
    ensures var n := |ticks| - 1;
            var before := Run(c, ticks[..n]).manager;
            var after := Run(c, ticks).manager;
            if !before.announced then after == before
            else if !ticks[n].world.withdrawOk then after == before.(lastErr := SpeakerFailed)
            else
              && !after.announced && after.rib == map[] && after.lastErr == NoError && after.lastSigs == []
              && |after.routes| == |before.routes|
              && forall i | 0 <= i < |after.routes| :: after.routes[i] == before.routes[i].(bgpsec := None)
  {
    var n := |ticks| - 1;
    RunInv(c, ticks[..n]);
    RunInv(c, ticks);
    Health.HealthIsWindowed(c.failThreshold, c.recoverThreshold, Probes(ticks));
    WithdrawEmpties(Run(c, ticks[..n]).manager.routes);
  }

  /** Shutdown leaves no signature, and reports whether the second withdrawal was refused. */
  lemma ShutdownReports(s: State, first: bool, second: bool)
    ensures var t := Shutdown(s, first, second);
            && t.lastErr == (if second then NoError else SpeakerFailed) && t.lastSigs == [] && !t.announced
            && |t.routes| == |s.routes| && forall i | 0 <= i < |t.routes| :: t.routes[i] == s.routes[i].(bgpsec := None)
  {
  }
}
