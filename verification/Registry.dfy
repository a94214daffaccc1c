/** What registering, heartbeats, deregistering and pruning do to one id, and to all others. */
module Registry {
  import opened Text
  import opened LbState

  /** A heartbeat of a registered dynamic id makes it live until its own time is past, and changes
      nothing about any other record; one of any other id changes nothing. */
  lemma HeartbeatKeepsLive(s: State, id: string, now: int)
    requires WF(s)
    ensures var t := Touch(s, id, now);
            var known := exists i :: 0 <= i < |s.backends| && s.objs[s.backends[i]].id == id && s.objs[s.backends[i]].dynamic;
            && WF(t) && t.backends == s.backends && t.routes == s.routes && t.load == s.load && t.rr == s.rr
            && (!known ==> t == s)
            && (known ==> forall cutoff | cutoff < now :: Live(t, id, cutoff))
            && |t.objs| == |s.objs|
            && (forall r | 0 <= r < |s.objs| :: t.objs[r].(lastSeen := s.objs[r].lastSeen) == s.objs[r])
            && (forall r | 0 <= r < |s.objs| && t.objs[r] != s.objs[r] ::
                  s.objs[r].id == id && s.objs[r].dynamic && t.objs[r].lastSeen == now)
  {
    var i := DynamicAt(s, id);
    var t := Touch(s, id, now);
    if i < |s.backends| {
      forall cutoff | cutoff < now ensures Live(t, id, cutoff) {
        assert t.objs[t.backends[i]].id == id && Alive(t.objs[t.backends[i]], cutoff);
      }
    }
  }

  /** After a registration the id is listed with the record of the request, as a dynamic backend: with
      the time under the lock when the id was listed, with the request's own stamp when it was not. All
      other records, the routes and the counters of all other ids are as they were. */
  lemma RegisterStores(s: State, b: Backend, now: int) returns (i: nat)
    requires WF(s)
    ensures var t := Register(s, b, now);
            var known := exists j :: 0 <= j < |s.backends| && s.objs[s.backends[j]].id == b.id;
            && WF(t) && i < |t.backends|
            && t.objs[t.backends[i]] == b.(dynamic := true, lastSeen := if known then now else b.lastSeen)
            && (known ==> t.backends == s.backends && |t.objs| == |s.objs| && t.load == s.load)
            && (!known ==> t.backends == s.backends + [|s.objs|] && |t.objs| == |s.objs| + 1 && b.id in t.load)
            && (forall r | 0 <= r < |s.objs| && r != t.backends[i] :: t.objs[r] == s.objs[r])
            && t.routes == s.routes && forall id | id != b.id :: LoadOf(t.load, id) == LoadOf(s.load, id)
  {
    var j := RegisterAt(s, b);
    i := j;
    if j == |s.backends| {
      assert Register(s, b, now).backends[j] == |s.objs|;
    }
  }

  /** So the id is live until its time is past. */
  lemma RegisteredIsLive(s: State, b: Backend, now: int, cutoff: int)
    requires WF(s)
    requires cutoff < if exists j :: 0 <= j < |s.backends| && s.objs[s.backends[j]].id == b.id then now else b.lastSeen
    ensures WF(Register(s, b, now)) && Live(Register(s, b, now), b.id, cutoff)
  {
    var i := RegisterStores(s, b, now);
    var t := Register(s, b, now);
    assert t.objs[t.backends[i]].id == b.id && Alive(t.objs[t.backends[i]], cutoff);
  }

  /** A dynamic id that deregisters loses its first dynamic record, its counter and all its routes, and
      nobody else loses anything; an id without a dynamic record changes nothing. */
  lemma DeregisterForgets(s: State, id: string)
    requires WF(s)
    ensures var t := Deregister(s, id);
            var known := exists i :: 0 <= i < |s.backends| && s.objs[s.backends[i]].id == id && s.objs[s.backends[i]].dynamic;
            && (!known ==> t == s)
            && (known ==> id !in t.load && Forgotten(s, t, {id}) && |t.backends| == |s.backends| - 1)
            && t.objs == s.objs && t.rr == s.rr
            && (forall other | other != id :: LoadOf(t.load, other) == LoadOf(s.load, other))
  {
  }

  /** Exactly the routes whose records have one of these ids are gone. */
  ghost predicate Forgotten(s: State, t: State, ids: set<string>)
    requires WF(s)
  {
    forall k :: (k in t.routes <==> k in s.routes && s.objs[s.routes[k]].id !in ids)
                && (k in t.routes ==> t.routes[k] == s.routes[k])
  }

  /** Pruning forgets the ids of expired listed records, and nobody else; what stays listed, in its
      order, is what is not expired. */
  lemma PruneForgets(s: State, cutoff: int)
    requires WF(s)
    ensures var t := Prune(s, cutoff);
            var gone := set i | 0 <= i < |s.backends| && s.objs[s.backends[i]].dynamic && s.objs[s.backends[i]].lastSeen <= cutoff
                         :: s.objs[s.backends[i]].id;
            && Forgotten(s, t, gone) && t.objs == s.objs && t.rr == s.rr
            && (forall id :: LoadOf(t.load, id) == if id in gone then 0 else LoadOf(s.load, id))
            && (forall r :: r in t.backends <==>
                  r in s.backends && !(s.objs[r].dynamic && s.objs[r].lastSeen <= cutoff))
  {
    assert (set i | 0 <= i < |s.backends| && s.objs[s.backends[i]].dynamic && s.objs[s.backends[i]].lastSeen <= cutoff
            :: s.objs[s.backends[i]].id) == ExpiredIds(s, cutoff);
  }

  /** A failed dial takes back its own route, but not one that a later client of the key has installed
      since, unless that leads to the same id. */
  lemma FailedDialKeepsNewerRoute(s: State, key: string, r: nat, q: nat)
    requires WF(s) && r < |s.objs| && q < |s.objs|
    ensures var t := AddRoute(AddRoute(s, key, r), key, q);
            && WF(t)
            && (DropRoute(t, key, r) == t <==> s.objs[q].id != s.objs[r].id)
            && (s.objs[q].id == s.objs[r].id ==> key !in DropRoute(t, key, r).routes)
            && forall k | k != key :: k in DropRoute(t, key, r).routes <==> k in s.routes
  {
  }
}
