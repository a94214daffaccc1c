/** Tunnel keys, and the host names that stand for them. */
module TunnelKey {
  import opened Text

  const DEFAULT_NAMESPACE := "default"
  const DEFAULT_TUNNEL_KEY := "default"

  function NormalizeNamespace(value: string): string {
    var ns := ToLower(TrimSpace(value));
    if ns == "" then DEFAULT_NAMESPACE else ns
  }

  /** `direct` is the routing mode. */
  function ComposeTunnelKey(direct: bool, namespace: string, subdomain: string): string {
    var ns := NormalizeNamespace(namespace);
    var sub := if direct then DEFAULT_TUNNEL_KEY else ToLower(TrimSpace(subdomain));
    if ns == DEFAULT_NAMESPACE then sub else ns + "/" + sub
  }

  /** Splits at the first slash. */
  function SplitTunnelKey(raw: string): (string, string) {
    var key := TrimSpace(raw);
    var i := IndexOf(key, '/');
    if key == "" then (DEFAULT_NAMESPACE, "")
    else if i < |key| then (NormalizeNamespace(key[..i]), key[i + 1..])
    else (DEFAULT_NAMESPACE, key)
  }

  /** The key for the labels left of the base domain: subdomain first, namespace last. */
  function LabelsKey(parts: seq<string>): string
    requires |parts| > 0
  {
    if |parts| == 1 then ComposeTunnelKey(false, DEFAULT_NAMESPACE, parts[0])
    else ComposeTunnelKey(false, parts[|parts| - 1], parts[0])
  }

  /** Without a base domain: the second label of three or more is the namespace. */
  function BareHostKey(host: string): string {
    var parts := Split(host, '.');
    if |parts| < 2 then ""
    else if parts[0] == "localhost" || parts[0] == "127" || parts[0] == "0" then ""
    else if |parts| >= 3 then ComposeTunnelKey(false, parts[1], parts[0])
    else ComposeTunnelKey(false, DEFAULT_NAMESPACE, parts[0])
  }

  function TunnelKeyFromHost(direct: bool, namespace: string, domain: string, rawHost: string): string {
    if direct then ComposeTunnelKey(true, namespace, DEFAULT_TUNNEL_KEY)
    else
      var host := TrimSuffix(rawHost, ".");
      var base := TrimSpace(domain);
      if host == "" then ""
      else if base != "" && HasSuffix(host, "." + base) then
        var prefix := TrimSuffix(host, "." + base);
        if prefix == "" then "" else LabelsKey(Split(prefix, '.'))
      else if base != "" && host == base then ""
      else BareHostKey(host)
  }

  /** The host part of the public URL in subdomain routing. */
  function PublicHost(serverIP: string, domain: string, namespace: string, subdomain: string): string {
    var host := if domain != "" then domain
                else if serverIP == "" || serverIP == "127.0.0.1" then "localhost"
                else serverIP;
    var ns := NormalizeNamespace(namespace);
    if ns != DEFAULT_NAMESPACE then subdomain + "." + ns + "." + host else subdomain + "." + host
  }

  // ---------------------------------------------------------------- valid labels

  predicate AlphaNum(c: char) {
    'a' <= c <= 'z' || '0' <= c <= '9'
  }

  /** The namespace pattern: 1 to 63 lower-case letters, digits and inner hyphens. */
  predicate ValidLabel(s: string) {
    && 1 <= |s| <= 63 && AlphaNum(s[0]) && AlphaNum(s[|s| - 1])
    && forall i | 0 <= i < |s| :: AlphaNum(s[i]) || s[i] == '-'
  }

  /** A namespace flag that validation accepts: empty, or a label up to case and outer space. */
  predicate ValidNamespace(value: string) {
    TrimSpace(value) == "" || ValidLabel(ToLower(TrimSpace(value)))
  }

  lemma LabelFacts(s: string)
    requires ValidLabel(s)
    ensures '.' !in s && '/' !in s && Trimmed(s) && TrimSpace(s) == s && ToLower(s) == s && IsLower(s)
  {
    TrimSpaceOfTrimmed(s);
    ToLowerFixed(s);
  }

  lemma NormalizedNamespace(value: string)
    requires ValidNamespace(value)
    ensures ValidLabel(NormalizeNamespace(value))
    ensures NormalizeNamespace(NormalizeNamespace(value)) == NormalizeNamespace(value)
  {
    assert ToLower("") == "";
    LabelFacts(NormalizeNamespace(value));
  }

  // ---------------------------------------------------------------- keys

  lemma SplitPlain(sub: string)
    requires ValidLabel(sub)
    ensures SplitTunnelKey(sub) == (DEFAULT_NAMESPACE, sub)
  {
    LabelFacts(sub);
    IndexOfAbsent(sub, '/');
  }

  lemma NamedKey(ns: string, sub: string)
    requires ValidLabel(ns) && ValidLabel(sub)
    ensures var key := ns + "/" + sub;
            TrimSpace(key) == key && IndexOf(key, '/') == |ns| && key[..|ns|] == ns && key[|ns| + 1..] == sub
  {
    var key := ns + "/" + sub;
    assert key[0] == ns[0] && key[|key| - 1] == sub[|sub| - 1];
    TrimSpaceOfTrimmed(key);
    assert key == ns + ['/'] + sub;
    LabelFacts(ns);
    IndexOfAt(ns, '/', sub);
  }

  lemma SplitNamed(ns: string, sub: string)
    requires ValidLabel(ns) && ValidLabel(sub)
    ensures SplitTunnelKey(ns + "/" + sub) == (NormalizeNamespace(ns), sub)
  {
    NamedKey(ns, sub);
  }

  /** A key splits back into the namespace and subdomain it was composed of. */
  lemma SplitUndoesCompose(namespace: string, subdomain: string)
    requires ValidNamespace(namespace) && ValidLabel(subdomain)
    ensures SplitTunnelKey(ComposeTunnelKey(false, namespace, subdomain)) == (NormalizeNamespace(namespace), subdomain)
  {
    NormalizedNamespace(namespace);
    LabelFacts(subdomain);
    SplitPlain(subdomain);
    SplitNamed(NormalizeNamespace(namespace), subdomain);
  }

  /** Distinct valid pairs never share a key. */
  lemma KeysAreUnique(ns: string, sub: string, ns': string, sub': string)
    requires ValidNamespace(ns) && ValidLabel(sub) && ValidNamespace(ns') && ValidLabel(sub')
    ensures ComposeTunnelKey(false, ns, sub) == ComposeTunnelKey(false, ns', sub')
       <==> NormalizeNamespace(ns) == NormalizeNamespace(ns') && sub == sub'
  {
    SplitUndoesCompose(ns, sub);
    SplitUndoesCompose(ns', sub');
    LabelFacts(sub);
  }

  /** Letter case and white space around it do not matter in a namespace; blank is the default one, and
      labels stay apart. */
  lemma NamespaceSpelling(lead: string, s: string, trail: string)
    requires AllSpace(lead) && AllSpace(trail) && Trimmed(s) && (s == "" || ValidLabel(ToLower(s)))
    ensures NormalizeNamespace(lead + s + trail) == if s == "" then "default" else ToLower(s)
  {
    TrimAround(lead, s, trail);
    LowerTwice(s);
  }

  /** Nor do they in a subdomain. */
  lemma SubdomainSpelling(namespace: string, lead: string, s: string, trail: string)
    requires AllSpace(lead) && AllSpace(trail) && Trimmed(s) && ValidLabel(ToLower(s))
    ensures ComposeTunnelKey(false, namespace, lead + s + trail) == ComposeTunnelKey(false, namespace, ToLower(s))
  {
    TrimAround(lead, s, trail);
    LowerTwice(s);
    LabelFacts(ToLower(s));
  }

  /** A key with white space around it splits as the key does. */
  lemma SplitSpelling(lead: string, key: string, trail: string)
    requires AllSpace(lead) && AllSpace(trail) && Trimmed(key)
    ensures SplitTunnelKey(lead + key + trail) == SplitTunnelKey(key)
  {
    TrimAround(lead, key, trail);
    TrimSpaceOfTrimmed(key);
  }

  /** Keys as they are spelled: two pairs of labels share a key iff they are the same two labels. */
  lemma LabelsStayApart(ns: string, sub: string, ns': string, sub': string)
    requires ValidLabel(ns) && ValidLabel(sub) && ValidLabel(ns') && ValidLabel(sub')
    ensures ComposeTunnelKey(false, ns, sub) == ComposeTunnelKey(false, ns', sub') <==> ns == ns' && sub == sub'
  {
    LabelIsItself(ns);
    LabelIsItself(ns');
    KeysAreUnique(ns, sub, ns', sub');
  }

  lemma LabelIsItself(s: string)
    requires ValidLabel(s)
    ensures ValidNamespace(s) && NormalizeNamespace(s) == s
  {
    LabelFacts(s);
  }

  // ---------------------------------------------------------------- hosts

  lemma SplitTwo(a: string, b: string)
    requires '.' !in a && '.' !in b
    ensures Split(a, '.') == [a] && Split(a + "." + b, '.') == [a, b]
  {
    SplitJoin([a], '.');
    SplitJoin([a, b], '.');
    assert [a, b][1..] == [b];
    assert Join([a, b], '.') == a + ['.'] + b;
  }

  lemma StripDomain(prefix: string, domain: string)
    ensures HasSuffix(prefix + "." + domain, "." + domain)
    ensures TrimSuffix(prefix + "." + domain, "." + domain) == prefix
  {
    var h := prefix + "." + domain;
    assert h[|h| - |domain| - 1..] == "." + domain;
    assert h[..|h| - |domain| - 1] == prefix;
  }

  /** A domain that is read as it is printed: no outer white space and no final dot. */
  predicate PlainDomain(domain: string) {
    domain != "" && Trimmed(domain) && domain[|domain| - 1] != '.'
  }

  lemma DefaultIsDefault()
    ensures NormalizeNamespace(DEFAULT_NAMESPACE) == DEFAULT_NAMESPACE && ValidLabel(DEFAULT_NAMESPACE)
  {
    LabelFacts(DEFAULT_NAMESPACE);
  }

  predicate LocalName(s: string) {
    s == "localhost" || s == "127" || s == "0"
  }

  lemma SplitFirst(a: string, rest: string)
    requires '.' !in a
    ensures Split(a + "." + rest, '.') == [a] + Split(rest, '.')
  {
    var s := a + ['.'] + rest;
    assert s == a + "." + rest;
    IndexOfAt(a, '.', rest);
    assert s[..|a|] == a && s[|a| + 1..] == rest;
  }

  lemma TrimEnd(a: string, h: string)
    requires h != ""
    ensures TrimSuffix(a + h, ".") == a + TrimSuffix(h, ".")
  {
    var s := a + h;
    assert s[|s| - 1..] == [h[|h| - 1]] && h[|h| - 1..] == [h[|h| - 1]];
    assert s[..|s| - 1] == a + h[..|h| - 1];
  }

  lemma BareHost(namespace: string, host: string)
    requires TrimSuffix(host, ".") != ""
    ensures TunnelKeyFromHost(false, namespace, "", host) == BareHostKey(TrimSuffix(host, "."))
  {
    assert TrimSpace("") == "";
  }

  /** The key that the second label of three or more stands for. */
  function SecondLabelKey(sub: string, parts: seq<string>): string
    requires |parts| >= 2
  {
    if LocalName(sub) then ""
    else if |parts| >= 3 then ComposeTunnelKey(false, parts[1], sub)
    else ComposeTunnelKey(false, DEFAULT_NAMESPACE, sub)
  }

  lemma BareKeyIs(host: string, sub: string, parts: seq<string>)
    requires Split(host, '.') == parts && |parts| >= 2 && parts[0] == sub
    ensures BareHostKey(host) == SecondLabelKey(sub, parts)
  {
  }

  /** What the server's address, without a final dot, contributes as the label after the subdomain. */
  function AddressNamespace(address: string): string {
    var t := TrimSuffix(address, ".");
    var i := IndexOf(t, '.');
    if i == |t| then DEFAULT_NAMESPACE else NormalizeNamespace(t[..i])
  }

  function ServerAddress(serverIP: string): string {
    if serverIP == "" || serverIP == "127.0.0.1" then "localhost" else serverIP
  }

  lemma NamespaceInKey(name: string, sub: string)
    requires ValidLabel(sub)
    ensures ComposeTunnelKey(false, name, sub) == sub <==> NormalizeNamespace(name) == DEFAULT_NAMESPACE
    ensures ComposeTunnelKey(false, name, sub) != ""
  {
    LabelFacts(sub);
    var ns := NormalizeNamespace(name);
    assert |ns + "/" + sub| > |sub|;
  }

  lemma DefaultParts(host: string, sub: string, t: string, rest: seq<string>)
    requires Split(host, '.') == [sub] + rest && rest == Split(t, '.')
    ensures BareHostKey(host) ==
            if LocalName(sub) then ""
            else if IndexOf(t, '.') == |t| then ComposeTunnelKey(false, DEFAULT_NAMESPACE, sub)
            else ComposeTunnelKey(false, t[..IndexOf(t, '.')], sub)
  {
    FirstPart(t);
    var parts := [sub] + rest;
    assert parts[1] == rest[0];
    BareKeyIs(host, sub, parts);
  }

  /** In the default namespace the address follows the subdomain directly. */
  lemma DefaultHostKey(sub: string, t: string)
    requires ValidLabel(sub)
    ensures BareHostKey(sub + "." + t) ==
            if LocalName(sub) then ""
            else if IndexOf(t, '.') == |t| then ComposeTunnelKey(false, DEFAULT_NAMESPACE, sub)
            else ComposeTunnelKey(false, t[..IndexOf(t, '.')], sub)
  {
    LabelFacts(sub);
    SplitFirst(sub, t);
    DefaultParts(sub + "." + t, sub, t, Split(t, '.'));
  }

  lemma FirstPart(t: string)
    ensures var i := IndexOf(t, '.'); Split(t, '.')[0] == t[..i] && (|Split(t, '.')| == 1 <==> i == |t|)
  {
    assert t[..|t|] == t;
  }

  lemma TwoFirst(sub: string, ns: string, t: string)
    requires '.' !in sub && '.' !in ns
    ensures Split(sub + "." + (ns + "." + t), '.') == [sub] + ([ns] + Split(t, '.'))
  {
    SplitFirst(ns, t);
    SplitFirst(sub, ns + "." + t);
  }

  lemma Regroup(sub: string, ns: string, t: string)
    ensures sub + "." + ns + "." + t == sub + "." + (ns + "." + t)
  {
  }

  lemma NamedHostKey(host: string, sub: string, ns: string, t: string)
    requires ValidLabel(sub) && ValidLabel(ns) && host == sub + "." + ns + "." + t
    ensures BareHostKey(host) == if LocalName(sub) then "" else ComposeTunnelKey(false, ns, sub)
  {
    LabelFacts(sub);
    LabelFacts(ns);
    TwoFirst(sub, ns, t);
    Regroup(sub, ns, t);
    NamedParts(host, sub, ns, [sub] + ([ns] + Split(t, '.')));
  }

  lemma NamedParts(host: string, sub: string, ns: string, parts: seq<string>)
    requires Split(host, '.') == parts && |parts| >= 3 && parts[0] == sub && parts[1] == ns
    ensures BareHostKey(host) == if LocalName(sub) then "" else ComposeTunnelKey(false, ns, sub)
  {
    BareKeyIs(host, sub, parts);
  }

  lemma KeyOfNormalized(namespace: string, subdomain: string)
    requires ValidNamespace(namespace) && ValidLabel(subdomain)
    ensures ComposeTunnelKey(false, namespace, subdomain)
         == ComposeTunnelKey(false, NormalizeNamespace(namespace), subdomain) != ""
  {
    NormalizedNamespace(namespace);
    LabelFacts(subdomain);
  }

  /** The host as it is read: its first part, then the address without a final dot. */
  lemma HostAsRead(namespace: string, a: string, address: string)
    requires a != "" && address != ""
    ensures TunnelKeyFromHost(false, namespace, "", a + address) == BareHostKey(a + TrimSuffix(address, "."))
  {
    TrimEnd(a, address);
    BareHost(namespace, a + address);
  }

  /** The labels before the domain. */
  function HostPrefix(ns: string, sub: string): string {
    if ns == DEFAULT_NAMESPACE then sub else sub + "." + ns
  }

  lemma PrefixEnd(ns: string, sub: string)
    requires ValidLabel(ns) && ValidLabel(sub)
    ensures var p := HostPrefix(ns, sub); p != "" && p[|p| - 1] != '.'
  {
  }

  lemma PrefixKey(ns: string, sub: string)
    requires '.' !in ns && '.' !in sub && NormalizeNamespace(DEFAULT_NAMESPACE) == DEFAULT_NAMESPACE
    ensures LabelsKey(Split(HostPrefix(ns, sub), '.')) == ComposeTunnelKey(false, ns, sub)
  {
    SplitTwo(sub, ns);
  }

  lemma PrefixFacts(ns: string, sub: string)
    requires ValidLabel(ns) && ValidLabel(sub)
    ensures var p := HostPrefix(ns, sub); p != "" && p[|p| - 1] != '.'
    ensures LabelsKey(Split(HostPrefix(ns, sub), '.')) == ComposeTunnelKey(false, ns, sub)
  {
    LabelFacts(ns);
    LabelFacts(sub);
    DefaultIsDefault();
    PrefixEnd(ns, sub);
    PrefixKey(ns, sub);
  }

  /** Whether the client's own key comes back from the host when no domain is recognised. */
  predicate BareRoundTrip(namespace: string, subdomain: string, address: string) {
    && !LocalName(subdomain)
    && (NormalizeNamespace(namespace) == DEFAULT_NAMESPACE ==> AddressNamespace(address) == DEFAULT_NAMESPACE)
  }

  lemma BareKeyBack(namespace: string, sub: string, ns: string, address: string)
    requires ValidLabel(sub) && ValidLabel(ns) && ns == NormalizeNamespace(namespace) && address != ""
    ensures BareHostKey(HostPrefix(ns, sub) + "." + TrimSuffix(address, ".")) == ComposeTunnelKey(false, ns, sub)
       <==> BareRoundTrip(namespace, sub, address)
  {
    var t := TrimSuffix(address, ".");
    LabelFacts(sub);
    LabelFacts(ns);
    DefaultIsDefault();
    NamespaceInKey(ns, sub);
    if ns == DEFAULT_NAMESPACE {
      DefaultHostKey(sub, t);
      NamespaceInKey(DEFAULT_NAMESPACE, sub);
      NamespaceInKey(t[..IndexOf(t, '.')], sub);
    } else {
      NamedHostKey(sub + "." + ns + "." + t, sub, ns, t);
    }
  }

  /** Without a base domain, for every server address: the printed host stands for the client's own
      key iff the subdomain is not a name of the local host and, in the default namespace, the
      address has no dot inside or its first label stands for the default namespace. */
  lemma LocalHostRoundTrip(serverIP: string, namespace: string, subdomain: string)
    requires ValidNamespace(namespace) && ValidLabel(subdomain)
    ensures TunnelKeyFromHost(false, namespace, "", PublicHost(serverIP, "", namespace, subdomain))
         == ComposeTunnelKey(false, namespace, subdomain)
       <==> BareRoundTrip(namespace, subdomain, ServerAddress(serverIP))
  {
    var ns := NormalizeNamespace(namespace);
    var address := ServerAddress(serverIP);
    NormalizedNamespace(namespace);
    KeyOfNormalized(namespace, subdomain);
    PrefixFacts(ns, subdomain);
    assert PublicHost(serverIP, "", namespace, subdomain) == HostPrefix(ns, subdomain) + "." + address;
    HostAsRead(namespace, HostPrefix(ns, subdomain) + ".", address);
    BareKeyBack(namespace, subdomain, ns, address);
  }

  /** Where the default namespace is lost: the first label of an address, or of a domain with a final
      dot, is read as the namespace. */
  lemma FirstLabelIsRead(first: string, rest: string)
    requires ValidLabel(first) && first != DEFAULT_NAMESPACE && rest != ""
    ensures AddressNamespace(first + "." + rest) == first
  {
    var address := first + "." + rest;
    var t := TrimSuffix(address, ".");
    var tail := TrimSuffix(rest, ".");
    TrimEnd(first + ".", rest);
    assert t == first + ['.'] + tail;
    LabelFacts(first);
    IndexOfAt(first, '.', tail);
    assert t[..|first|] == first;
  }

  // ---------------------------------------------------------------- with a base domain

  lemma DiffersAt(h: string, p: string, i: nat)
    requires i < |p| <= |h| && h[|h| - |p| + i] != p[i]
    ensures !HasSuffix(h, p)
  {
    assert h[|h| - |p|..][i] == h[|h| - |p| + i];
  }

  lemma FinalDot(domain: string)
    requires domain != ""
    ensures TrimSuffix(domain, ".") == if domain[|domain| - 1] == '.' then domain[..|domain| - 1] else domain
  {
    assert domain[|domain| - 1..] == [domain[|domain| - 1]];
  }

  /** The host, as it is read, does not end in a domain that is not plain. */
  lemma EndsOtherwise(prefix: string, domain: string)
    requires prefix != "" && prefix[|prefix| - 1] != '.' && TrimSpace(domain) != "" && !PlainDomain(domain)
    ensures !HasSuffix(prefix + "." + TrimSuffix(domain, "."), "." + TrimSpace(domain))
  {
    var base := TrimSpace(domain);
    var host, suffix := prefix + "." + TrimSuffix(domain, "."), "." + base;
    var a := TrimSpacePlace(domain);
    TrimSpaceIsTrimmed(domain);
    FinalDot(domain);
    if a + |base| < |domain| {
      DiffersAt(host, suffix, |base|);
    } else if a > 0 {
      SpaceBefore(prefix, domain, base, a);
    } else {
      DotBefore(prefix, domain);
    }
  }

  lemma SpaceBefore(prefix: string, domain: string, base: string, a: nat)
    requires prefix != "" && 0 < a < |domain| && IsSpace(domain[a - 1]) && !IsSpace(domain[a]) && base == domain[a..]
    ensures !HasSuffix(prefix + "." + TrimSuffix(domain, "."), "." + base)
  {
    FinalDot(domain);
    var host := prefix + "." + TrimSuffix(domain, ".");
    DiffersAt(host, "." + base, if domain[|domain| - 1] == '.' then 1 else 0);
  }

  lemma DotBefore(prefix: string, domain: string)
    requires prefix != "" && prefix[|prefix| - 1] != '.' && domain != "" && domain[|domain| - 1] == '.'
    ensures !HasSuffix(prefix + "." + TrimSuffix(domain, "."), "." + domain)
  {
    FinalDot(domain);
    DiffersAt(prefix + "." + TrimSuffix(domain, "."), "." + domain, 0);
  }

  /** Reading a host once its final dot and the domain's outer white space are gone. */
  lemma ReadHost(namespace: string, domain: string, raw: string, host: string, base: string)
    requires TrimSuffix(raw, ".") == host && TrimSpace(domain) == base && |host| > |base|
    ensures base != "" && HasSuffix(host, "." + base) && TrimSuffix(host, "." + base) != "" ==>
              TunnelKeyFromHost(false, namespace, domain, raw) == LabelsKey(Split(TrimSuffix(host, "." + base), '.'))
    ensures base == "" || !HasSuffix(host, "." + base) ==> TunnelKeyFromHost(false, namespace, domain, raw) == BareHostKey(host)
  {
  }

  /** In a plain domain the host stands for the labels before it. */
  lemma PlainHost(namespace: string, domain: string, prefix: string)
    requires PlainDomain(domain) && prefix != ""
    ensures TunnelKeyFromHost(false, namespace, domain, prefix + "." + domain) == LabelsKey(Split(prefix, '.'))
  {
    var host := prefix + "." + domain;
    FinalDot(host);
    TrimSpaceOfTrimmed(domain);
    StripDomain(prefix, domain);
    ReadHost(namespace, domain, host, host, domain);
  }

  /** In any other it is read as if there were no domain. */
  lemma OtherHost(namespace: string, domain: string, prefix: string)
    requires domain != "" && !PlainDomain(domain) && prefix != "" && prefix[|prefix| - 1] != '.'
    ensures TunnelKeyFromHost(false, namespace, domain, prefix + "." + domain)
         == BareHostKey(prefix + "." + TrimSuffix(domain, "."))
  {
    var host := prefix + "." + TrimSuffix(domain, ".");
    TrimEnd(prefix + ".", domain);
    FinalDot(domain);
    TrimSpaceIsTrimmed(domain);
    if TrimSpace(domain) != "" {
      EndsOtherwise(prefix, domain);
    }
    ReadHost(namespace, domain, prefix + "." + domain, host, TrimSpace(domain));
  }

  /** With a base domain, for every one that is set: the printed host stands for the client's own key
      iff the domain has neither outer white space nor a final dot, or the host would come back without
      a domain as well. */
  lemma HostRoundTrip(serverIP: string, domain: string, namespace: string, subdomain: string)
    requires domain != "" && ValidNamespace(namespace) && ValidLabel(subdomain)
    ensures TunnelKeyFromHost(false, namespace, domain, PublicHost(serverIP, domain, namespace, subdomain))
         == ComposeTunnelKey(false, namespace, subdomain)
       <==> PlainDomain(domain) || BareRoundTrip(namespace, subdomain, domain)
  {
    var ns := NormalizeNamespace(namespace);
    NormalizedNamespace(namespace);
    KeyOfNormalized(namespace, subdomain);
    PrefixFacts(ns, subdomain);
    assert PublicHost(serverIP, domain, namespace, subdomain) == HostPrefix(ns, subdomain) + "." + domain;
    if PlainDomain(domain) {
      PlainHost(namespace, domain, HostPrefix(ns, subdomain));
    } else {
      OtherHost(namespace, domain, HostPrefix(ns, subdomain));
      BareKeyBack(namespace, subdomain, ns, domain);
    }
  }

  /** A lower-cased host is the same host when the domain is lower-case. */
  lemma LowerCasedHostRoundTrip(serverIP: string, domain: string, namespace: string, subdomain: string)
    requires domain != "" && IsLower(domain) && ValidNamespace(namespace) && ValidLabel(subdomain)
    ensures TunnelKeyFromHost(false, namespace, domain, ToLower(PublicHost(serverIP, domain, namespace, subdomain)))
         == ComposeTunnelKey(false, namespace, subdomain)
       <==> PlainDomain(domain) || BareRoundTrip(namespace, subdomain, domain)
  {
    NormalizedNamespace(namespace);
    LabelFacts(NormalizeNamespace(namespace));
    LabelFacts(subdomain);
    ToLowerFixed(PublicHost(serverIP, domain, namespace, subdomain));
    HostRoundTrip(serverIP, domain, namespace, subdomain);
  }

  // ---------------------------------------------------------------- hosts that are no tunnel's

  lemma LettersAreLabel(s: string)
    requires 1 <= |s| <= 63 && forall i | 0 <= i < |s| :: 'a' <= s[i] <= 'z' || '0' <= s[i] <= '9' || (s[i] == '-' && 0 < i < |s| - 1)
    ensures ValidLabel(s)
  {
  }

  /** Every short name of letters and digits, with hyphens inside, is a valid label once lower-cased, and
      a valid namespace however it is spelled. */
  lemma NamesAreLabels(lead: string, s: string, trail: string, lower: string)
    requires AllSpace(lead) && AllSpace(trail) && Trimmed(s) && lower == ToLower(s) && 1 <= |lower| <= 63
    requires forall i | 0 <= i < |lower| ::
               'a' <= lower[i] <= 'z' || '0' <= lower[i] <= '9' || (lower[i] == '-' && 0 < i < |lower| - 1)
    ensures ValidLabel(lower) && ValidNamespace(lead + s + trail)
  {
    LettersAreLabel(lower);
    TrimAround(lead, s, trail);
  }

  /** A host without a dot, and the base domain itself, with or without a final dot, stand for no
      tunnel. */
  lemma NoTunnelHost(namespace: string, domain: string, host: string)
    requires '.' !in host
    ensures TunnelKeyFromHost(false, namespace, "", host) == ""
    ensures PlainDomain(domain) ==> TunnelKeyFromHost(false, namespace, domain, domain) == ""
    ensures PlainDomain(domain) ==> TunnelKeyFromHost(false, namespace, domain, domain + ".") == ""
  {
    SplitTwo(host, host);
    if host != "" {
      FinalDot(host);
    }
    if PlainDomain(domain) {
      ApexHost(namespace, domain, domain);
      FinalDot(domain);
      FinalDot(domain + ".");
      assert (domain + ".")[..|domain|] == domain;
      ApexHost(namespace, domain, domain + ".");
    }
  }

  lemma ApexHost(namespace: string, domain: string, raw: string)
    requires PlainDomain(domain) && TrimSuffix(raw, ".") == domain
    ensures TunnelKeyFromHost(false, namespace, domain, raw) == ""
  {
    TrimSpaceOfTrimmed(domain);
    assert |"." + domain| > |domain|;
  }

  /** Below the base domain the first label is the subdomain and the last one the namespace, whatever
      stands between. */
  lemma DeepHost(namespace: string, domain: string, sub: string, between: seq<string>, ns: string)
    requires PlainDomain(domain) && sub != "" && ns != "" && '.' !in sub && '.' !in ns
    requires forall p | p in between :: '.' !in p
    ensures TunnelKeyFromHost(false, namespace, domain, Join([sub] + between + [ns], '.') + "." + domain)
         == ComposeTunnelKey(false, ns, sub)
  {
    var parts := [sub] + between + [ns];
    assert parts == ([sub] + between) + [ns];
    JoinSnoc([sub] + between, ns, '.');
    SplitJoin(parts, '.');
    PlainHost(namespace, domain, Join(parts, '.'));
    assert parts[0] == sub && parts[|parts| - 1] == ns;
  }
}
