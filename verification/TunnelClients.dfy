/** What a connecting client gets: its own key, its own record, and its own session behind its host. */
module TunnelClients {
  import opened Text
  import opened TunnelKey
  import opened TunnelState

  /** What a client sends, where it connects from and when. */
  datatype Client = Client(namespace: string, subdomain: string, remote: string, now: int)

  predicate Valid(c: Client) {
    ValidNamespace(c.namespace) && ValidLabel(c.subdomain)
  }

  function RecOf(direct: bool, c: Client, open: bool): Rec {
    NewRec(direct, c.namespace, c.subdomain, c.remote, c.now, open)
  }

  /** The two clients ask for the same tunnel. */
  predicate SamePair(c: Client, d: Client) {
    NormalizeNamespace(c.namespace) == NormalizeNamespace(d.namespace) && c.subdomain == d.subdomain
  }

  /** The record is the client's: its key splits back into the pair the client sent, and pair, remote
      and time are stored as sent. */
  lemma RecordIsTheClients(c: Client, open: bool)
    requires Valid(c)
    ensures var rec := RecOf(false, c, open);
            && SplitTunnelKey(rec.key) == (NormalizeNamespace(c.namespace), c.subdomain)
            && (rec.namespace, rec.subdomain) == SplitTunnelKey(rec.key)
            && rec.remote == c.remote && rec.connectedAt == c.now && rec.open == open && !rec.done && !rec.swept
  {
    SplitUndoesCompose(c.namespace, c.subdomain);
  }

  /** In direct routing the namespace alone tells clients apart. */
  lemma DirectRecord(c: Client, d: Client, open: bool)
    requires Valid(c) && Valid(d)
    ensures RecOf(true, c, open).key == RecOf(true, d, open).key
       <==> NormalizeNamespace(c.namespace) == NormalizeNamespace(d.namespace)
    ensures RecOf(true, c, open).namespace == NormalizeNamespace(c.namespace)
    ensures RecOf(true, c, open).subdomain == DEFAULT_TUNNEL_KEY
  {
    DirectKey(c.namespace);
    DirectKey(d.namespace);
  }

  lemma DirectKey(namespace: string)
    requires ValidNamespace(namespace)
    ensures var ns := NormalizeNamespace(namespace);
            ComposeTunnelKey(true, namespace, "") == if ns == DEFAULT_NAMESPACE then "default" else ns + "/default"
    ensures var ns := NormalizeNamespace(namespace); ns != DEFAULT_NAMESPACE ==> (ns + "/default")[..|ns|] == ns
    ensures var ns := NormalizeNamespace(namespace); ns != DEFAULT_NAMESPACE ==> |ns + "/default"| == |ns| + 8
    ensures |NormalizeNamespace(namespace)| > 0
  {
    NormalizedNamespace(namespace);
  }

  /** After connecting, the client's key leads to the client's own new session, and no entry waits for
      the key any more; every other key is as it was. */
  lemma ConnectInstalls(s: State, direct: bool, c: Client, open: bool)
    requires WF(s)
    ensures var rec := RecOf(direct, c, open);
            var t := Connect(s, rec);
            && rec.key in t.tunnels && t.tunnels[rec.key] == |s.recs| && |t.recs| == |s.recs| + 1 && t.recs[|s.recs|] == rec
            && rec.key !in t.pending
            && (forall k | k != rec.key :: (k in t.tunnels <==> k in s.tunnels) && (k in t.tunnels ==> t.tunnels[k] == s.tunnels[k]))
            && (forall k | k != rec.key :: (k in t.pending <==> k in s.pending) && (k in t.pending ==> t.pending[k] == s.pending[k]))
  {
  }

  /** A second client closes the first one's session iff they ask for the same tunnel, and no other
      session is touched. */
  lemma SupersedesExactly(s: State, c: Client, d: Client, open: bool)
    requires WF(s) && Valid(c) && Valid(d)
    ensures var once := Connect(s, RecOf(false, c, true));
            var twice := Connect(once, RecOf(false, d, open));
            var r := |s.recs|;
            && WF(once) && r < |twice.recs|
            && (!twice.recs[r].open <==> SamePair(c, d))
            && (forall q | 0 <= q < r :: twice.recs[q] == once.recs[q] || (KeyOfClient(d) in s.tunnels && q == s.tunnels[KeyOfClient(d)]))
  {
    KeysAreUnique(c.namespace, c.subdomain, d.namespace, d.subdomain);
  }

  function KeyOfClient(d: Client): string {
    ComposeTunnelKey(false, d.namespace, d.subdomain)
  }

  /** The host that the client's URL shows leads to the client's own session, with any plain base
      domain, whatever happened before. */
  lemma PrintedHostFindsTheSession(s: State, c: Client, open: bool, serverIP: string, domain: string)
    requires WF(s) && Valid(c) && PlainDomain(domain)
    ensures var t := Connect(s, RecOf(false, c, open));
            var key := TunnelKeyFromHost(false, c.namespace, domain, PublicHost(serverIP, domain, c.namespace, c.subdomain));
            key in t.tunnels && t.tunnels[key] == |s.recs| && t.recs[t.tunnels[key]] == RecOf(false, c, open)
  {
    HostRoundTrip(serverIP, domain, c.namespace, c.subdomain);
    ConnectInstalls(s, false, c, open);
  }

  // ---------------------------------------------------------------- sessions that end

  /** Any session may close at any time, which closes it and nothing else; its handler's teardown comes
      once, and only after that. */
  lemma CloseThenTeardown(compose: (string, string) -> string, s: State, r: nat)
    requires WF(s) && r < |s.recs|
    ensures Enabled(compose, s, Closes(r))
    ensures Enabled(compose, s, TearsDown(r)) <==> !s.recs[r].open && !s.recs[r].done
    ensures var t := Next(compose, s, Closes(r));
            && t.recs == s.recs[r := s.recs[r].(open := false)] && t.tunnels == s.tunnels && t.pending == s.pending
    ensures !s.recs[r].open && !s.recs[r].done ==>
              var t := Next(compose, s, TearsDown(r));
              && t.recs == s.recs[r := s.recs[r].(done := true)] && t.pending == s.pending
              && (forall k :: k in t.tunnels <==> k in s.tunnels && !(k == s.recs[r].key && s.tunnels[k] == r))
              && forall k | k in t.tunnels :: t.tunnels[k] == s.tunnels[k]
  {
  }

  // ---------------------------------------------------------------- entries of a snapshot

  /** The key under which an entry is restored: its own, or the one composed of its names. */
  predicate RestoredUnder(compose: (string, string) -> string, t: Snap, k: string) {
    (t.tunnelKey != "" ==> k == t.tunnelKey) && (t.tunnelKey == "" ==> k == compose(t.namespace, t.subdomain))
  }

  lemma {:induction false} TunnelsRestored(compose: (string, string) -> string, pending: map<string, Snap>, list: seq<Snap>, k: string)
    ensures k in RestoreTunnels(compose, pending, list)
       <==> k in pending || exists i :: 0 <= i < |list| && RestoredUnder(compose, list[i], k)
  {
    if list != [] {
      var n := |list| - 1;
      TunnelsRestored(compose, pending, list[..n], k);
      if i :| 0 <= i < |list| && RestoredUnder(compose, list[i], k) {
        assert i < n ==> list[..n][i] == list[i];
      }
      if i :| 0 <= i < n && RestoredUnder(compose, list[..n][i], k) {
        assert list[i] == list[..n][i];
      }
    }
  }

  lemma {:induction false} PendingRestored(
      compose: (string, string) -> string, live: set<string>, pending: map<string, Snap>, list: seq<Snap>, k: string)
    ensures k in RestorePending(compose, live, pending, list)
       <==> k in pending || (k !in live && exists i :: 0 <= i < |list| && RestoredUnder(compose, list[i], k))
  {
    if list != [] {
      var n := |list| - 1;
      PendingRestored(compose, live, pending, list[..n], k);
      if i :| 0 <= i < |list| && RestoredUnder(compose, list[i], k) {
        assert i < n ==> list[..n][i] == list[i];
      }
      if i :| 0 <= i < n && RestoredUnder(compose, list[..n][i], k) {
        assert list[i] == list[..n][i];
      }
    }
  }

  /** What waits after a restore, for any snapshot, entries without a key included: what waited before,
      every tunnel of the snapshot, and its pending entries whose keys are not live. */
  lemma RestoredKeys(compose: (string, string) -> string, s: State, snap: Snapshot, k: string)
    ensures var t := Restore(compose, s, snap);
            && (k in t.pending <==>
                  || k in s.pending
                  || (exists i :: 0 <= i < |snap.tunnels| && RestoredUnder(compose, snap.tunnels[i], k))
                  || (k !in s.tunnels && exists i :: 0 <= i < |snap.pending| && RestoredUnder(compose, snap.pending[i], k)))
            && t.recs == s.recs && t.tunnels == s.tunnels
  {
    TunnelsRestored(compose, s.pending, snap.tunnels, k);
    PendingRestored(compose, s.tunnels.Keys, RestoreTunnels(compose, s.pending, snap.tunnels), snap.pending, k);
  }
}
