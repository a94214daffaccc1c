/** The announce/withdraw manager: validation and signing gates in front of a BGP speaker that
    may refuse any request. */
module Announce {
  import opened Octets
  import opened Cidr
  import Rov
  import opened Bgpsec

  datatype Route = Route(
    prefix: PrefixText, nextHop: string, localAsn: U32Nat, peerAsn: U32Nat, communities: seq<string>,
    bgpsec: Option<OriginSignature>, rov: Option<Rov.Validity>)

  datatype Policy = Policy(
    rov: Rov.Validator, signer: Option<Signer>, targetAsn: U32Nat,
    failClosed: bool, requireSign: bool, exportsSignatures: bool)
  {
    predicate Valid() {
      signer.Some? ==> |signer.value.ski| == 20
    }
  }

  /** What the outside answers while one request is handled. */
  datatype World = World(ecdsa: seq<EcdsaResult>, exportOk: bool, announceOk: bool, withdrawOk: bool)

  /** ECDSA yields integers below the P-256 order. */
  predicate Sane(w: World, n: nat) {
    |w.ecdsa| == n && forall i | 0 <= i < n ::
      w.ecdsa[i].EcdsaPair? ==> w.ecdsa[i].r < P256_RANGE && w.ecdsa[i].s < P256_RANGE
  }

  datatype LastError = NoError | Blocked | ExportFailed | SpeakerFailed

  type Rib = map<PrefixText, Route>

  /** The speaker: routes it currently advertises, keyed by prefix. An error changes nothing. */
  class Speaker {
    var rib: Rib

    constructor ()
      ensures rib == map[]
    {
      rib := map[];
    }

    method Announce(routes: seq<Route>, answer: bool) returns (ok: bool)
      modifies this
      ensures ok == answer && rib == if ok then Install(old(rib), routes) else old(rib)
    {
      if answer {
        rib := Install(rib, routes);
      }
      return answer;
    }

    method Withdraw(routes: seq<Route>, answer: bool) returns (ok: bool)
      modifies this
      ensures ok == answer && rib == if ok then Remove(old(rib), routes) else old(rib)
    {
      if answer {
        rib := Remove(rib, routes);
      }
      return answer;
    }
  }

  function Install(rib: Rib, routes: seq<Route>): Rib {
    if routes == [] then rib else Install(rib, routes[..|routes| - 1])[routes[|routes| - 1].prefix := routes[|routes| - 1]]
  }

  function Remove(rib: Rib, routes: seq<Route>): Rib {
    rib - (set r | r in routes :: r.prefix)
  }

  // ---------------------------------------------------------------- preparing

  /** Gate one route; None blocks the whole announcement. */
  ghost function PrepareRoute(p: Policy, r: Route, x: EcdsaResult): Option<Route>
    requires x.EcdsaPair? ==> x.r < P256_RANGE && x.s < P256_RANGE
  {
    var r1 := r.(bgpsec := None, rov := Some(Rov.Verdict(p.rov, r.prefix, r.localAsn)));
    if !Rov.Allowed(p.rov, r.prefix, r.localAsn) && (p.failClosed || p.rov.requireValid) then None
    else if p.signer.None? then if p.requireSign then None else Some(r1)
    else
      var sig := Signed(p.signer.value, r.prefix, p.targetAsn, x);
      if sig.Some? && VerifyOrigin(p.signer.value, sig.value) then Some(r1.(bgpsec := sig))
      else if p.failClosed || p.requireSign then None
      else Some(r1)
  }

  ghost function Prepare(p: Policy, routes: seq<Route>, w: World): Option<seq<Route>>
    requires Sane(w, |routes|)
  {
    if forall i | 0 <= i < |routes| :: PrepareRoute(p, routes[i], w.ecdsa[i]).Some? then
      Some(seq(|routes|, i requires 0 <= i < |routes| && PrepareRoute(p, routes[i], w.ecdsa[i]).Some? =>
        PrepareRoute(p, routes[i], w.ecdsa[i]).value))
    else None
  }

  function Signatures(routes: seq<Route>): seq<OriginSignature> {
    if routes == [] then []
    else
      var n := |routes| - 1;
      Signatures(routes[..n]) + if routes[n].bgpsec.Some? then [routes[n].bgpsec.value] else []
  }

  function Unsign(routes: seq<Route>): (r: seq<Route>)
    ensures |r| == |routes| && forall i | 0 <= i < |r| :: r[i] == routes[i].(bgpsec := None)
  {
    seq(|routes|, i requires 0 <= i < |routes| => routes[i].(bgpsec := None))
  }

  // ---------------------------------------------------------------- the manager as a state machine

  datatype State = State(routes: seq<Route>, announced: bool, lastErr: LastError,
                         lastSigs: seq<OriginSignature>, rib: Rib)

  ghost function HealthStep(p: Policy, s: State, healthy: bool, w: World): State
    requires Sane(w, |s.routes|)
  {
    if healthy == s.announced then s
    else if healthy then
      var prepared := Prepare(p, s.routes, w);
      if prepared.None? then s.(lastErr := Blocked)
      else
        var s1 := s.(lastSigs := Signatures(prepared.value));
        if p.exportsSignatures && !w.exportOk && p.failClosed then s1.(lastErr := ExportFailed)
        else if !w.announceOk then s1.(lastErr := SpeakerFailed)
        else s1.(rib := Install(s.rib, prepared.value), routes := prepared.value, announced := true, lastErr := NoError)
    else if !w.withdrawOk then s.(lastErr := SpeakerFailed)
    else s.(rib := Remove(s.rib, s.routes), routes := Unsign(s.routes), lastSigs := [], announced := false,
            lastErr := NoError)
  }

  ghost function ForceStep(s: State, withdrawOk: bool): State {
    State(Unsign(s.routes), false, if withdrawOk then NoError else SpeakerFailed, [],
          if withdrawOk then Remove(s.rib, s.routes) else s.rib)
  }

  class Manager {
    const policy: Policy
    const speaker: Speaker
    var routes: seq<Route>
    var announced: bool
    var lastErr: LastError
    var lastSigs: seq<OriginSignature>

    ghost function Abs(): State
      reads this, speaker
    {
      State(routes, announced, lastErr, lastSigs, speaker.rib)
    }

    constructor (policy: Policy, speaker: Speaker, prefixes: seq<PrefixText>, nextHop: string,
                 localAsn: U32Nat, peerAsn: U32Nat, communities: seq<string>)
      ensures this.policy == policy && this.speaker == speaker
      ensures Abs() == State(Configured(prefixes, nextHop, localAsn, peerAsn, communities), false, NoError, [], speaker.rib)
    {
      this.policy := policy;
      this.speaker := speaker;
      announced, lastErr, lastSigs := false, NoError, [];
      routes := [];
      new;
      for i := 0 to |prefixes|
        invariant routes == Configured(prefixes[..i], nextHop, localAsn, peerAsn, communities)
        invariant !announced && lastErr == NoError && lastSigs == []
      {
        routes := routes + [Route(prefixes[i], nextHop, localAsn, peerAsn, communities, None, None)];
      }
      assert prefixes[..|prefixes|] == prefixes;
    }

    /** The preparation loop over a copy of the routes. */
    method PrepareRoutes(w: World) returns (out: Option<seq<Route>>)
      requires policy.Valid() && Sane(w, |routes|)
      modifies this`lastSigs
      ensures out == Prepare(policy, routes, w)
      ensures lastSigs == if out.Some? then Signatures(out.value) else old(lastSigs)
    {
      var copied := routes;
      var sigs: seq<OriginSignature> := [];
      for i := 0 to |copied|
        invariant |copied| == |routes| && copied[i..] == routes[i..]
        invariant forall j | 0 <= j < i :: PrepareRoute(policy, routes[j], w.ecdsa[j]) == Some(copied[j])
        invariant sigs == Signatures(copied[..i])
        invariant lastSigs == old(lastSigs)
      {
        var r := copied[i];
        assert r == copied[i..][0] == routes[i..][0] == routes[i];
        var ok, val := Rov.AllowAnnounce(policy.rov, r.prefix, r.localAsn);
        r := r.(bgpsec := None, rov := Some(val));
        if !ok && (policy.failClosed || policy.rov.requireValid) {
          return None;
        }
        if policy.signer.Some? {
          var signer := policy.signer.value;
          var sig := SignOrigin(signer, r.prefix, policy.targetAsn, w.ecdsa[i]);
          if sig.None? || !VerifyOrigin(signer, sig.value) {
            if policy.failClosed || policy.requireSign {
              return None;
            }
          } else {
            r := r.(bgpsec := sig);
            sigs := sigs + [sig.value];
          }
        } else if policy.requireSign {
          return None;
        }
        ghost var before := copied;
        copied := copied[i := r];
        assert copied[..i + 1] == before[..i] + [r];
        assert copied[..i + 1][..i] == before[..i];
        assert copied[i + 1..] == before[i..][1..];
      }
      assert copied[..|copied|] == copied;
      lastSigs := sigs;
      out := Some(copied);
      assert Prepare(policy, routes, w).Some? && Prepare(policy, routes, w).value == copied;
    }

    method SetHealthy(healthy: bool, w: World) returns (err: bool)
      requires policy.Valid() && Sane(w, |routes|)
      modifies this, speaker
      ensures Abs() == HealthStep(policy, old(Abs()), healthy, w)
      ensures !err ==> announced == healthy
    {
      if healthy {
        if announced {
          return false;
        }
        var prepared := PrepareRoutes(w);
        if prepared.None? {
          lastErr := Blocked;
          return true;
        }
        if policy.exportsSignatures && !w.exportOk {
          lastErr := ExportFailed;
          if policy.failClosed {
            return true;
          }
        }
        var ok := speaker.Announce(prepared.value, w.announceOk);
        if !ok {
          lastErr := SpeakerFailed;
          return true;
        }
        routes, announced, lastErr := prepared.value, true, NoError;
        return false;
      }
      if !announced {
        return false;
      }
      var ok := speaker.Withdraw(routes, w.withdrawOk);
      if !ok {
        lastErr := SpeakerFailed;
        return true;
      }
      ClearSignatures();
      lastSigs, announced, lastErr := [], false, NoError;
      return false;
    }

    method ClearSignatures()
      modifies this`routes
      ensures routes == Unsign(old(routes))
    {
      var i := 0;
      while i < |routes|
        invariant 0 <= i <= |routes| == |old(routes)|
        invariant forall j | 0 <= j < |routes| ::
                    routes[j] == if j < i then old(routes)[j].(bgpsec := None) else old(routes)[j]
      {
        routes := routes[i := routes[i].(bgpsec := None)];
        i := i + 1;
      }
    }

    method ForceWithdraw(withdrawOk: bool) returns (err: bool)
      modifies this, speaker
      ensures Abs() == ForceStep(old(Abs()), withdrawOk) && err == !withdrawOk
    {
      var ok := speaker.Withdraw(routes, withdrawOk);
      announced := false;
      lastSigs := [];
      ClearSignatures();
      lastErr := if ok then NoError else SpeakerFailed;
      return !ok;
    }
  }

  function Configured(prefixes: seq<PrefixText>, nextHop: string, localAsn: U32Nat, peerAsn: U32Nat,
                      communities: seq<string>): (r: seq<Route>)
    ensures |r| == |prefixes|
    ensures forall i | 0 <= i < |r| :: r[i] == Route(prefixes[i], nextHop, localAsn, peerAsn, communities, None, None)
  {
    seq(|prefixes|, i requires 0 <= i < |prefixes| =>
      Route(prefixes[i], nextHop, localAsn, peerAsn, communities, None, None))
  }
}
