/** Choosing the resolver zone for a query name by additive scores, and the precedence order
    those scores implement. */
module DnsZones {
  import opened Text

  datatype Option<+T> = None | Some(value: T)

  datatype Zone = Zone(tld: string, domains: seq<string>, doh: string, upstream: string)

  function NormalizeDomainPattern(s: string): string {
    TrimSuffix(ToLower(TrimSpace(s)), ".")
  }

  /** What file validation guarantees of a zone: the TLD is a single label. */
  predicate Validated(z: Zone) {
    '.' !in z.tld
  }

  // ---------------------------------------------------------------- kinds of match

  /** How a pattern matches a name; suffix matches carry the length of the suffix. */
  datatype Kind = Exact | Apex | Plain(len: nat) | Wild(len: nat) | TldExact | TldSuffix(len: nat)

  predicate Below(domain: string, suffix: string) {
    HasSuffix(domain, "." + suffix)
  }

  function WildcardKind(domain: string, suffix: string): Option<Kind> {
    if domain == suffix then Some(Apex)
    else if Below(domain, suffix) then Some(Wild(|suffix|))
    else None
  }

  function PlainKind(domain: string, pat: string): Option<Kind> {
    if domain == pat then Some(Exact)
    else if Below(domain, pat) then Some(Plain(|pat|))
    else None
  }

  /** The match of a normalised pattern. */
  function KindOf(domain: string, pat: string): Option<Kind> {
    if pat == "" then None
    else if HasPrefix(pat, "*.") then WildcardKind(domain, pat[2..])
    else PlainKind(domain, pat)
  }

  function PatternKind(domain: string, raw: string): Option<Kind> {
    KindOf(domain, NormalizeDomainPattern(raw))
  }

  function TldKind(domain: string, tld: string): Option<Kind> {
    if tld == "" then None
    else if domain == tld then Some(TldExact)
    else if Below(domain, tld) then Some(TldSuffix(|tld|))
    else None
  }

  /** The score of a match of a name of length `n`. */
  function Score(n: nat, k: Kind): nat {
    match k
    case Exact => 400 + n
    case Apex => 300 + n
    case Plain(l) => 250 + l
    case Wild(l) => 200 + l
    case TldExact => 100 + n
    case TldSuffix(l) => 50 + l
  }

  function AddKind(kinds: seq<Kind>, k: Option<Kind>): seq<Kind> {
    if k.Some? then kinds + [k.value] else kinds
  }

  function PatternKinds(domain: string, patterns: seq<string>): seq<Kind> {
    if patterns == [] then []
    else
      var n := |patterns| - 1;
      AddKind(PatternKinds(domain, patterns[..n]), PatternKind(domain, patterns[n]))
  }

  /** The ways a zone matches, patterns first, then its TLD. */
  function ZoneKinds(domain: string, z: Zone): seq<Kind> {
    AddKind(PatternKinds(domain, z.domains), TldKind(domain, z.tld))
  }

  /** The matches of every zone, in listing order. */
  function Matches(domain: string, zones: seq<Zone>): (ms: seq<seq<Kind>>)
    ensures |ms| == |zones|
    ensures forall i | 0 <= i < |ms| :: ms[i] == ZoneKinds(domain, zones[i])
  {
    seq(|zones|, i requires 0 <= i < |zones| => ZoneKinds(domain, zones[i]))
  }

  /** Zone `i` holds a match of the highest score, and no earlier zone reaches that score. */
  ghost predicate Best(n: nat, ms: seq<seq<Kind>>, i: nat, k: Kind)
    requires i < |ms|
  {
    && k in ms[i]
    && forall j, k' | 0 <= j < |ms| && k' in ms[j] :: Score(n, k') <= Score(n, k) && (j < i ==> Score(n, k') < Score(n, k))
  }

  ghost predicate NoMatch(ms: seq<seq<Kind>>) {
    forall j | 0 <= j < |ms| :: ms[j] == []
  }

  // ---------------------------------------------------------------- the loop

  datatype Candidate = Candidate(index: nat, kind: Kind)

  function Consider(n: nat, best: Option<Candidate>, i: nat, k: Kind): Option<Candidate> {
    if best.None? || Score(n, k) > Score(n, best.value.kind) then Some(Candidate(i, k)) else best
  }

  /** Considering the matches `kinds` of zone `i` after `best`. */
  function ConsiderAll(n: nat, best: Option<Candidate>, i: nat, kinds: seq<Kind>): Option<Candidate> {
    if kinds == [] then best
    else Consider(n, ConsiderAll(n, best, i, kinds[..|kinds| - 1]), i, kinds[|kinds| - 1])
  }

  function Scan(n: nat, ms: seq<seq<Kind>>): Option<Candidate> {
    if ms == [] then None
    else ConsiderAll(n, Scan(n, ms[..|ms| - 1]), |ms| - 1, ms[|ms| - 1])
  }

  lemma ConsiderOneMore(n: nat, best: Option<Candidate>, i: nat, kinds: seq<Kind>, k: Option<Kind>)
    ensures var b := ConsiderAll(n, best, i, kinds);
            ConsiderAll(n, best, i, AddKind(kinds, k)) == if k.Some? then Consider(n, b, i, k.value) else b
  {
    if k.Some? {
      var all := kinds + [k.value];
      assert all[..|all| - 1] == kinds;
    }
  }

  /** What considering all matches of zone `i` leaves. */
  lemma {:induction false} ConsiderAllIsMax(n: nat, best: Option<Candidate>, i: nat, kinds: seq<Kind>)
    ensures var b := ConsiderAll(n, best, i, kinds);
            && (b.None? <==> best.None? && kinds == [])
            && (b.Some? && b != best ==>
                  && b.value.index == i && b.value.kind in kinds
                  && (best.Some? ==> Score(n, best.value.kind) < Score(n, b.value.kind)))
            && (best.Some? ==> Score(n, best.value.kind) <= Score(n, b.value.kind))
            && (forall k :: k in kinds ==> Score(n, k) <= Score(n, b.value.kind))
  {
    if kinds != [] {
      var p := kinds[..|kinds| - 1];
      ConsiderAllIsMax(n, best, i, p);
      assert kinds == p + [kinds[|kinds| - 1]];
    }
  }

  lemma {:induction false} ScanIsBest(n: nat, ms: seq<seq<Kind>>)
    ensures Scan(n, ms).None? <==> NoMatch(ms)
    ensures var b := Scan(n, ms);
            b.Some? ==> b.value.index < |ms| && Best(n, ms, b.value.index, b.value.kind)
  {
    if ms != [] {
      var last := |ms| - 1;
      var p := ms[..last];
      ScanIsBest(n, p);
      ConsiderAllIsMax(n, Scan(n, p), last, ms[last]);
      assert forall j | 0 <= j < last :: p[j] == ms[j];
    }
  }

  function NormalizeQuery(domain: string): string {
    TrimSuffix(ToLower(TrimSpace(domain)), ".")
  }

  function ConsiderIf(n: nat, best: Option<Candidate>, i: nat, k: Option<Kind>): Option<Candidate> {
    if k.Some? then Consider(n, best, i, k.value) else best
  }

  lemma NextPattern(domain: string, patterns: seq<string>, n: nat, best: Option<Candidate>, i: nat, k: Option<Kind>)
    requires n < |patterns| && k == PatternKind(domain, patterns[n])
    ensures ConsiderAll(|domain|, best, i, PatternKinds(domain, patterns[..n + 1]))
         == ConsiderIf(|domain|, ConsiderAll(|domain|, best, i, PatternKinds(domain, patterns[..n])), i, k)
  {
    assert patterns[..n + 1][..n] == patterns[..n];
    ConsiderOneMore(|domain|, best, i, PatternKinds(domain, patterns[..n]), k);
  }

  lemma AllPatterns(domain: string, z: Zone, best: Option<Candidate>, i: nat, k: Option<Kind>)
    requires k == TldKind(domain, z.tld)
    ensures ConsiderAll(|domain|, best, i, ZoneKinds(domain, z))
         == ConsiderIf(|domain|, ConsiderAll(|domain|, best, i, PatternKinds(domain, z.domains[..|z.domains|])), i, k)
  {
    assert z.domains[..|z.domains|] == z.domains;
    ConsiderOneMore(|domain|, best, i, PatternKinds(domain, z.domains), k);
  }

  /** One zone's turn: the loop over its patterns, then its TLD. */
  method ConsiderZone(domain: string, z: Zone, i: nat, best: Option<Candidate>) returns (best': Option<Candidate>)
    ensures best' == ConsiderAll(|domain|, best, i, ZoneKinds(domain, z))
  {
    best' := best;
    for n := 0 to |z.domains|
      invariant best' == ConsiderAll(|domain|, best, i, PatternKinds(domain, z.domains[..n]))
    {
      var k := PatternKind(domain, z.domains[n]);
      NextPattern(domain, z.domains, n, best, i, k);
      best' := ConsiderIf(|domain|, best', i, k);
    }
    var k := TldKind(domain, z.tld);
    AllPatterns(domain, z, best, i, k);
    best' := ConsiderIf(|domain|, best', i, k);
  }

  /** The nested scoring loops. */
  method MatchDnsZone(rawDomain: string, zones: seq<Zone>) returns (r: Option<Zone>)
    ensures var domain := NormalizeQuery(rawDomain);
            && (r.None? <==> domain == "" || NoMatch(Matches(domain, zones)))
            && (r.Some? ==> exists i, k :: 0 <= i < |zones| && zones[i] == r.value && Best(|domain|, Matches(domain, zones), i, k))
  {
    var domain := NormalizeQuery(rawDomain);
    if domain == "" || |zones| == 0 {
      return None;
    }
    ghost var ms := Matches(domain, zones);
    var len := |domain|;
    var best: Option<Candidate> := None;
    for i := 0 to |zones|
      invariant best == Scan(len, ms[..i])
    {
      best := ConsiderZone(domain, zones[i], i, best);
      assert ms[..i + 1][..i] == ms[..i];
    }
    assert ms[..|zones|] == ms;
    ScanIsBest(len, ms);
    if best.None? {
      return None;
    }
    return Some(zones[best.value.index]);
  }

  // ---------------------------------------------------------------- the order behind the scores

  /** The precedence order, without numbers except the head start of a plain suffix. */
  predicate Outranks(a: Kind, b: Kind) {
    match (a, b)
    case (Exact, Exact) => false
    case (Exact, _) => true
    case (_, Exact) => false
    case (Apex, Apex) => false
    case (Apex, _) => true
    case (_, Apex) => false
    case (Plain(l), Plain(m)) => l > m
    case (Wild(l), Wild(m)) => l > m
    case (Plain(l), Wild(m)) => m < l + 50
    case (Wild(m), Plain(l)) => m > l + 50
    case (Plain(_), _) => true
    case (Wild(_), _) => true
    case (TldExact, TldSuffix(_)) => true
    case (TldSuffix(l), TldSuffix(m)) => l > m
    case _ => false
  }

  /** What a match of this kind says about the name. */
  predicate Possible(domain: string, k: Kind) {
    match k
    case Plain(l) => l < |domain| && domain[|domain| - l - 1] == '.'
    case Wild(l) => l < |domain| && domain[|domain| - l - 1] == '.'
    case TldExact => '.' !in domain
    case TldSuffix(l) => l < |domain| && domain[|domain| - l - 1] == '.' && '.' !in domain[|domain| - l..]
    case _ => true
  }

  lemma BelowMeans(domain: string, suffix: string)
    requires Below(domain, suffix)
    ensures |suffix| < |domain| && domain[|domain| - |suffix| - 1] == '.' && domain[|domain| - |suffix|..] == suffix
  {
    var tail := domain[|domain| - |suffix| - 1..];
    assert tail == "." + suffix;
    assert tail[0] == '.';
    assert domain[|domain| - |suffix|..] == tail[1..];
  }

  lemma PlainPossible(domain: string, pat: string)
    requires PlainKind(domain, pat).Some?
    ensures Possible(domain, PlainKind(domain, pat).value)
  {
    if Below(domain, pat) {
      BelowMeans(domain, pat);
    }
  }

  lemma WildcardPossible(domain: string, suffix: string)
    requires WildcardKind(domain, suffix).Some?
    ensures Possible(domain, WildcardKind(domain, suffix).value)
  {
    if Below(domain, suffix) {
      BelowMeans(domain, suffix);
    }
  }

  lemma KindPossible(domain: string, pat: string)
    requires KindOf(domain, pat).Some?
    ensures Possible(domain, KindOf(domain, pat).value)
  {
    if HasPrefix(pat, "*.") {
      WildcardPossible(domain, pat[2..]);
    } else {
      PlainPossible(domain, pat);
    }
  }

  lemma PatternPossible(domain: string, raw: string)
    requires PatternKind(domain, raw).Some?
    ensures Possible(domain, PatternKind(domain, raw).value)
  {
    KindPossible(domain, NormalizeDomainPattern(raw));
  }

  lemma {:induction false} PatternsPossible(domain: string, patterns: seq<string>, k: Kind)
    requires k in PatternKinds(domain, patterns)
    ensures Possible(domain, k)
  {
    var n := |patterns| - 1;
    if k in PatternKinds(domain, patterns[..n]) {
      PatternsPossible(domain, patterns[..n], k);
    } else {
      PatternPossible(domain, patterns[n]);
    }
  }

  lemma MatchPossible(domain: string, z: Zone, k: Kind)
    requires Validated(z) && k in ZoneKinds(domain, z)
    ensures Possible(domain, k)
  {
    if k in PatternKinds(domain, z.domains) {
      PatternsPossible(domain, z.domains, k);
    } else if domain != z.tld {
      BelowMeans(domain, z.tld);
    }
  }

  /** For two matches of one name, whatever its length, the higher score is the higher rank. */
  lemma ScoreIsRank(domain: string, a: Kind, b: Kind)
    requires Possible(domain, a) && Possible(domain, b)
    ensures Score(|domain|, a) > Score(|domain|, b) <==> Outranks(a, b)
  {
    LongerThanTld(domain, a, b);
    LongerThanTld(domain, b, a);
  }

  predicate IsSuffixKind(k: Kind) {
    k.Plain? || k.Wild?
  }

  /** A suffix pattern is at least as long as the last label. */
  lemma LongerThanTld(domain: string, a: Kind, b: Kind)
    requires Possible(domain, a) && Possible(domain, b)
    ensures IsSuffixKind(a) && b.TldSuffix? ==> a.len >= b.len
    ensures IsSuffixKind(a) ==> !b.TldExact?
  {
    if IsSuffixKind(a) && b.TldSuffix? {
      var tail := domain[|domain| - b.len..];
      forall p | |domain| - b.len <= p < |domain| ensures domain[p] != '.' {
        assert domain[p] == tail[p - (|domain| - b.len)];
      }
    }
  }

  lemma MatchesPossible(domain: string, zones: seq<Zone>)
    requires forall j | 0 <= j < |zones| :: Validated(zones[j])
    ensures forall j, k | 0 <= j < |zones| && k in Matches(domain, zones)[j] :: Possible(domain, k)
  {
    forall j, k | 0 <= j < |zones| && k in Matches(domain, zones)[j] ensures Possible(domain, k) {
      MatchPossible(domain, zones[j], k);
    }
  }

  /** Zone `i` is the first with a match that nothing outranks. */
  ghost predicate MostSpecific(ms: seq<seq<Kind>>, i: nat, k: Kind)
    requires i < |ms|
  {
    && k in ms[i]
    && forall j, k' | 0 <= j < |ms| && k' in ms[j] :: !Outranks(k', k) && (j < i ==> Outranks(k, k'))
  }

  lemma BestIsMostSpecific(domain: string, ms: seq<seq<Kind>>, i: nat, k: Kind)
    requires i < |ms| && forall j, k | 0 <= j < |ms| && k in ms[j] :: Possible(domain, k)
    ensures Best(|domain|, ms, i, k) <==> MostSpecific(ms, i, k)
  {
    if k in ms[i] {
      forall j, k' | 0 <= j < |ms| && k' in ms[j]
        ensures Score(|domain|, k') > Score(|domain|, k) <==> Outranks(k', k)
        ensures Score(|domain|, k) > Score(|domain|, k') <==> Outranks(k, k')
      {
        ScoreIsRank(domain, k', k);
        ScoreIsRank(domain, k, k');
      }
    }
  }

  /** On a validated file, the scores pick the first listed zone with a most specific match. */
  lemma ScoresPickMostSpecific(domain: string, zones: seq<Zone>, i: nat, k: Kind)
    requires i < |zones| && forall j | 0 <= j < |zones| :: Validated(zones[j])
    ensures Best(|domain|, Matches(domain, zones), i, k) <==> MostSpecific(Matches(domain, zones), i, k)
  {
    MatchesPossible(domain, zones);
    BestIsMostSpecific(domain, Matches(domain, zones), i, k);
  }

  /** A pattern that normalisation leaves alone. */
  predicate NormalPattern(s: string) {
    s != "" && Trimmed(s) && IsLower(s) && s[|s| - 1] != '.'
  }

  lemma AlreadyNormal(s: string)
    requires NormalPattern(s)
    ensures NormalizeDomainPattern(s) == s
  {
    TrimSpaceOfTrimmed(s);
    ToLowerFixed(s);
    assert s[|s| - 1..][0] == s[|s| - 1];
  }

  lemma BelowLonger(d: string, a: string, suffix: string)
    requires d == a + "." + suffix
    ensures Below(d, suffix) && |d| > |suffix|
  {
    assert d[|d| - |suffix| - 1..] == "." + suffix;
  }

  lemma PlainMatches(d: string, a: string, pat: string)
    requires NormalPattern(pat) && !HasPrefix(pat, "*.") && d == a + "." + pat
    ensures PatternKind(d, pat) == Some(Plain(|pat|))
  {
    AlreadyNormal(pat);
    BelowLonger(d, a, pat);
    assert PlainKind(d, pat) == Some(Plain(|pat|));
  }

  lemma WildcardMatches(d: string, a: string, suffix: string, pat: string)
    requires pat == "*." + suffix && NormalPattern(pat) && d == a + "." + suffix
    ensures PatternKind(d, pat) == Some(Wild(|suffix|))
  {
    AlreadyNormal(pat);
    BelowLonger(d, a, suffix);
    assert WildcardKind(d, suffix) == Some(Wild(|suffix|));
    assert pat[..2] == "*." && pat[2..] == suffix;
  }

  lemma SameName(a: string, b: string, c: string)
    ensures a + "." + (b + "." + c) == (a + "." + b) + "." + c
    ensures |b + "." + c| == |b| + 1 + |c|
  {
  }

  lemma HeadStart(n: nat, l: nat, m: nat)
    ensures Score(n, Plain(l)) > Score(n, Wild(m)) <==> m < l + 50
  {
  }

  /** The two patterns and the name: `c`, `*.b.c` and `a.b.c`. */
  predicate PlainAndWildcard(a: string, b: string, c: string, d: string, wildcard: string) {
    && NormalPattern(c) && !HasPrefix(c, "*.") && NormalPattern(wildcard)
    && wildcard == "*." + (b + "." + c) && d == a + "." + (b + "." + c)
  }

  lemma PlainSide(a: string, b: string, c: string, d: string, wildcard: string)
    requires PlainAndWildcard(a, b, c, d, wildcard)
    ensures PatternKind(d, c) == Some(Plain(|c|))
  {
    SameName(a, b, c);
    PlainMatches(d, a + "." + b, c);
  }

  lemma WildcardSide(a: string, b: string, c: string, d: string, wildcard: string)
    requires PlainAndWildcard(a, b, c, d, wildcard)
    ensures PatternKind(d, wildcard) == Some(Wild(|b| + 1 + |c|))
  {
    SameName(a, b, c);
    WildcardMatches(d, a, b + "." + c, wildcard);
  }

  /** Longest suffix does not always win: a plain suffix `c` beats the more specific wildcard
      `*.b.c` exactly while the wildcard is less than fifty characters longer. */
  lemma PlainBeatsMoreSpecificWildcard(a: string, b: string, c: string, d: string, wildcard: string)
    requires PlainAndWildcard(a, b, c, d, wildcard)
    ensures PatternKind(d, c) == Some(Plain(|c|)) && PatternKind(d, wildcard) == Some(Wild(|b| + 1 + |c|))
    ensures Score(|d|, Plain(|c|)) > Score(|d|, Wild(|b| + 1 + |c|)) <==> |b| + 1 < 50
  {
    PlainSide(a, b, c, d, wildcard);
    WildcardSide(a, b, c, d, wildcard);
    HeadStart(|d|, |c|, |b| + 1 + |c|);
  }

  // ---------------------------------------------------------------- what patterns mean

  /** The name lies below `s`. */
  ghost predicate Under(domain: string, s: string) {
    exists a :: domain == a + "." + s
  }

  lemma BelowIsUnder(domain: string, s: string)
    ensures Below(domain, s) <==> Under(domain, s)
    ensures Under(domain, s) ==> |s| < |domain| && domain[|domain| - |s|..] == s
  {
    if Below(domain, s) {
      BelowMeans(domain, s);
      assert domain == domain[..|domain| - |s| - 1] + "." + s;
    }
    if a :| domain == a + "." + s {
      BelowLonger(domain, a, s);
      assert domain[|domain| - |s|..] == s;
    }
  }

  /** The pattern, however it is spelled, is the plain name `s`. */
  predicate IsPlain(raw: string, s: string) {
    NormalizeDomainPattern(raw) == s && s != "" && !HasPrefix(s, "*.")
  }

  /** It is the wildcard below `s`. */
  predicate IsWildcard(raw: string, s: string) {
    NormalizeDomainPattern(raw) == "*." + s
  }

  /** What it means for a pattern to match a name in a given way. */
  ghost predicate Means(domain: string, raw: string, k: Kind) {
    match k
    case Exact => IsPlain(raw, domain)
    case Apex => IsWildcard(raw, domain)
    case Plain(l) => l <= |domain| && IsPlain(raw, domain[|domain| - l..]) && Under(domain, domain[|domain| - l..])
    case Wild(l) => l <= |domain| && IsWildcard(raw, domain[|domain| - l..]) && Under(domain, domain[|domain| - l..])
    case _ => false
  }

  lemma WildcardText(pat: string, s: string)
    ensures pat == "*." + s <==> HasPrefix(pat, "*.") && pat[2..] == s
  {
    if HasPrefix(pat, "*.") && pat[2..] == s {
      assert pat == pat[..2] + pat[2..];
    }
  }

  lemma KindMeans(domain: string, raw: string, k: Kind)
    ensures PatternKind(domain, raw) == Some(k) <==> Means(domain, raw, k)
  {
    var pat := NormalizeDomainPattern(raw);
    if HasPrefix(pat, "*.") {
      var s := pat[2..];
      WildcardText(pat, s);
      WildcardText(pat, domain);
      BelowIsUnder(domain, s);
      WildMeans(domain, raw, s, k);
    } else {
      BelowIsUnder(domain, pat);
      PlainMeans(domain, raw, pat, k);
    }
  }

  lemma WildMeans(domain: string, raw: string, s: string, k: Kind)
    requires NormalizeDomainPattern(raw) == "*." + s && HasPrefix("*." + s, "*.") && ("*." + s)[2..] == s
    requires Below(domain, s) <==> Under(domain, s)
    requires Under(domain, s) ==> |s| < |domain| && domain[|domain| - |s|..] == s
    ensures PatternKind(domain, raw) == Some(k) <==> Means(domain, raw, k)
  {
    WildcardText("*." + s, domain);
    if k.Wild? && k.len <= |domain| {
      WildcardText("*." + s, domain[|domain| - k.len..]);
    }
  }

  lemma PlainMeans(domain: string, raw: string, pat: string, k: Kind)
    requires NormalizeDomainPattern(raw) == pat && !HasPrefix(pat, "*.")
    requires Below(domain, pat) <==> Under(domain, pat)
    requires Under(domain, pat) ==> |pat| < |domain| && domain[|domain| - |pat|..] == pat
    ensures PatternKind(domain, raw) == Some(k) <==> Means(domain, raw, k)
  {
    WildcardText(pat, domain);
    if k.Wild? && k.len <= |domain| {
      WildcardText(pat, domain[|domain| - k.len..]);
    }
  }

  /** A zone's TLD as a match. */
  ghost predicate TldMeans(domain: string, tld: string, k: Kind) {
    match k
    case TldExact => tld != "" && domain == tld
    case TldSuffix(l) => tld != "" && l == |tld| && Under(domain, tld)
    case _ => false
  }

  lemma TldKindMeans(domain: string, tld: string, k: Kind)
    ensures TldKind(domain, tld) == Some(k) <==> TldMeans(domain, tld, k)
  {
    BelowIsUnder(domain, tld);
  }

  ghost predicate SomeMatches(domain: string, patterns: seq<string>, k: Kind) {
    exists n :: 0 <= n < |patterns| && PatternKind(domain, patterns[n]) == Some(k)
  }

  lemma SomeSnoc(domain: string, patterns: seq<string>, last: string, k: Kind)
    ensures SomeMatches(domain, patterns + [last], k) <==> SomeMatches(domain, patterns, k) || PatternKind(domain, last) == Some(k)
  {
    var all := patterns + [last];
    if n :| 0 <= n < |all| && PatternKind(domain, all[n]) == Some(k) {
      assert n < |patterns| ==> all[n] == patterns[n];
    }
    if n :| 0 <= n < |patterns| && PatternKind(domain, patterns[n]) == Some(k) {
      assert all[n] == patterns[n];
    }
    assert all[|patterns|] == last;
  }

  lemma InAdded(kinds: seq<Kind>, x: Option<Kind>, k: Kind)
    ensures k in AddKind(kinds, x) <==> k in kinds || x == Some(k)
  {
  }

  lemma {:induction false} SomePattern(domain: string, patterns: seq<string>, k: Kind)
    ensures k in PatternKinds(domain, patterns) <==> SomeMatches(domain, patterns, k)
  {
    if patterns != [] {
      var last := |patterns| - 1;
      SomePattern(domain, patterns[..last], k);
      SomeSnoc(domain, patterns[..last], patterns[last], k);
      InAdded(PatternKinds(domain, patterns[..last]), PatternKind(domain, patterns[last]), k);
      assert patterns == patterns[..last] + [patterns[last]];
    }
  }

  /** The matches of a zone, by their meaning: an exact pattern matches its own name, a plain one every
      name below it, a wildcard its apex and every name below, and the TLD itself and every name below. */
  lemma ZoneMeans(domain: string, z: Zone, k: Kind)
    ensures k in ZoneKinds(domain, z) <==>
              (exists n :: 0 <= n < |z.domains| && Means(domain, z.domains[n], k)) || TldMeans(domain, z.tld, k)
  {
    SomePattern(domain, z.domains, k);
    TldKindMeans(domain, z.tld, k);
    forall n | 0 <= n < |z.domains| ensures PatternKind(domain, z.domains[n]) == Some(k) <==> Means(domain, z.domains[n], k) {
      KindMeans(domain, z.domains[n], k);
    }
    if n :| 0 <= n < |z.domains| && Means(domain, z.domains[n], k) {
      assert PatternKind(domain, z.domains[n]) == Some(k);
    }
    if n :| 0 <= n < |z.domains| && PatternKind(domain, z.domains[n]) == Some(k) {
      assert Means(domain, z.domains[n], k);
    }
  }

  /** Letter case, white space around it and one final dot do not matter in a pattern or a query. */
  lemma SpelledAlike(lead: string, s: string, dot: string, trail: string)
    requires AllSpace(lead) && AllSpace(trail) && (dot == "" || dot == ".") && NormalPattern(ToLower(s)) && Trimmed(s)
    ensures NormalizeDomainPattern(lead + s + dot + trail) == ToLower(s)
    ensures NormalizeQuery(lead + s + dot + trail) == ToLower(s)
  {
    var x := s + dot;
    var p := ToLower(s);
    assert x != "" && Trimmed(x);
    assert lead + s + dot + trail == lead + x + trail;
    TrimAround(lead, x, trail);
    LowerConcat(s, dot);
    assert ToLower(dot) == dot;
    FinalDotCut(p, dot);
  }

  lemma FinalDotCut(p: string, dot: string)
    requires p != "" && p[|p| - 1] != '.' && (dot == "" || dot == ".")
    ensures TrimSuffix(p + dot, ".") == p
  {
    var x := p + dot;
    if dot == "" {
      assert x == p && x[|x| - 1..][0] == p[|p| - 1];
    } else {
      assert x[|x| - 1..] == "." && x[..|x| - 1] == p;
    }
  }
}
