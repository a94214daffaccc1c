/** Route origin validation of the anycast prefixes, against RFC 6811. */
module Rov {
  import opened Octets
  import opened Cidr

  datatype Validity = Valid | Invalid | NotFound

  /** A configured ROA; a max length of zero stands for the prefix length. */
  datatype RoaConfig = RoaConfig(prefix: PrefixText, asn: nat, maxLength: int)

  datatype Roa = Roa(net: Prefix, asn: nat, maxLength: nat)

  datatype RoaProblem = EmptyPrefix | BadPrefix | BadMaxLength | AsnRequired

  datatype Compiled = Ok(roas: seq<Roa>) | Err(index: nat, problem: RoaProblem)

  datatype Validator = Validator(enabled: bool, roas: seq<Roa>, requireValid: bool, allowPrivate: bool)

  function EffectiveMax(r: RoaConfig): int
    requires r.prefix.Parsed?
  {
    if r.maxLength == 0 then r.prefix.prefix.ones else r.maxLength
  }

  /** The first reason to reject a configured ROA, in the order they are checked. */
  function Problem(r: RoaConfig): (p: seq<RoaProblem>)
    ensures |p| <= 1
  {
    match r.prefix
    case Blank => [EmptyPrefix]
    case Malformed => [BadPrefix]
    case Parsed(net) =>
      if EffectiveMax(r) < net.ones || EffectiveMax(r) > 8 * net.family.Width() then [BadMaxLength]
      else if r.asn == 0 then [AsnRequired]
      else []
  }

  function Compile(r: RoaConfig): Roa
    requires Problem(r) == []
  {
    Roa(Network(r.prefix.prefix), r.asn, EffectiveMax(r))
  }

  /** Either every ROA compiles, or the first bad one is reported. */
  method CompileRoas(roas: seq<RoaConfig>) returns (r: Compiled)
    ensures r.Ok? <==> forall i | 0 <= i < |roas| :: Problem(roas[i]) == []
    ensures r.Ok? ==> |r.roas| == |roas| && forall i | 0 <= i < |roas| :: r.roas[i] == Compile(roas[i])
    ensures r.Ok? ==> CompiledFrom(roas, r.roas)
    ensures r.Err? ==>
              && r.index < |roas| && Problem(roas[r.index]) == [r.problem]
              && forall i | 0 <= i < r.index :: Problem(roas[i]) == []
  {
    var out: seq<Roa> := [];
    for i := 0 to |roas|
      invariant |out| == i
      invariant forall j | 0 <= j < i :: Problem(roas[j]) == [] && out[j] == Compile(roas[j])
    {
      var r := roas[i];
      if r.prefix.Blank? {
        return Err(i, EmptyPrefix);
      }
      if r.prefix.Malformed? {
        return Err(i, BadPrefix);
      }
      var net := r.prefix.prefix;
      var maxLen := r.maxLength;
      if maxLen == 0 {
        maxLen := net.ones;
      }
      if maxLen < net.ones || maxLen > 8 * net.family.Width() {
        return Err(i, BadMaxLength);
      }
      if r.asn == 0 {
        return Err(i, AsnRequired);
      }
      out := out + [Roa(Network(net), r.asn, maxLen)];
    }
    return Ok(out);
  }

  /** Private AS numbers and private or documentation IPv4 space. */
  predicate IsDocumentationOrPrivate(text: PrefixText, asn: nat) {
    || 64512 <= asn <= 65534
    || 4200000000 <= asn <= 4294967294
    || (text.Parsed? && text.prefix.family.V4? &&
        var a := text.prefix.addr;
        || (a[0] == 192 && a[1] == 0 && a[2] == 2)
        || (a[0] == 198 && a[1] == 51 && a[2] == 100)
        || (a[0] == 203 && a[1] == 0 && a[2] == 113)
        || a[0] == 10
        || (a[0] == 172 && 16 <= a[1] <= 31)
        || (a[0] == 192 && a[1] == 168))
  }

  // ---------------------------------------------------------------- what the validator decides

  /** The ROAs the loop looks at: they cover the route and allow its length. */
  predicate Considered(r: Roa, p: Prefix) {
    Contains(r.net, Network(p)) && r.net.ones <= p.ones <= r.maxLength
  }

  /** Verdict of the table scan. */
  ghost function TableVerdict(roas: seq<Roa>, p: Prefix, asn: nat): Validity {
    if exists r :: r in roas && Considered(r, p) && r.asn == asn then Valid
    else if exists r :: r in roas && Considered(r, p) then Invalid
    else NotFound
  }

  ghost function Verdict(v: Validator, text: PrefixText, asn: nat): Validity {
    if !v.enabled then Valid
    else if v.allowPrivate && IsDocumentationOrPrivate(text, asn) then Valid
    else if v.roas == [] then if v.requireValid then NotFound else Valid
    else if !text.Parsed? then Invalid
    else TableVerdict(v.roas, text.prefix, asn)
  }

  /** The scan with its early exit and its flag. */
  method ValidateOrigin(v: Validator, text: PrefixText, asn: nat) returns (r: Validity)
    ensures r == Verdict(v, text, asn)
  {
    if !v.enabled {
      return Valid;
    }
    if |v.roas| == 0 {
      if v.allowPrivate && IsDocumentationOrPrivate(text, asn) {
        return Valid;
      }
      if !v.requireValid {
        return Valid;
      }
      return NotFound;
    }
    if v.allowPrivate && IsDocumentationOrPrivate(text, asn) {
      return Valid;
    }
    if !text.Parsed? {
      return Invalid;
    }
    var p := text.prefix;
    var network := Network(p);
    var coveringWithOtherAsn := false;
    for i := 0 to |v.roas|
      invariant forall j | 0 <= j < i :: Considered(v.roas[j], p) ==> v.roas[j].asn != asn
      invariant coveringWithOtherAsn <==> exists j :: 0 <= j < i && Considered(v.roas[j], p)
    {
      var roa := v.roas[i];
      if !Contains(roa.net, network) {
        continue;
      }
      if p.ones < roa.net.ones || p.ones > roa.maxLength {
        continue;
      }
      if roa.asn == asn {
        return Valid;
      }
      coveringWithOtherAsn := true;
    }
    if coveringWithOtherAsn {
      return Invalid;
    }
    return NotFound;
  }

  ghost predicate Allowed(v: Validator, text: PrefixText, asn: nat) {
    match Verdict(v, text, asn)
    case Valid => true
    case Invalid => false
    case NotFound => !v.requireValid
  }

  method AllowAnnounce(v: Validator, text: PrefixText, asn: nat) returns (ok: bool, val: Validity)
    ensures val == Verdict(v, text, asn) && ok == Allowed(v, text, asn)
  {
    val := ValidateOrigin(v, text, asn);
    match val {
      case Valid => ok := true;
      case Invalid => ok := false;
      case NotFound => ok := !v.requireValid;
    }
  }

  // ---------------------------------------------------------------- RFC 6811

  /** Section 2: the VRP covers the route prefix, its max length admits it, the origins agree. */
  predicate Matches(r: Roa, p: Prefix, asn: nat) {
    Covers(r.net, p) && p.ones <= r.maxLength && r.asn == asn
  }

  ghost function RfcState(roas: seq<Roa>, p: Prefix, asn: nat): Validity {
    if exists r :: r in roas && Matches(r, p, asn) then Valid
    else if exists r :: r in roas && Covers(r.net, p) then Invalid
    else NotFound
  }

  /** Containment of the network plus the length test is coverage in the sense of the RFC. */
  lemma ConsideredIsCovering(r: Roa, p: Prefix)
    ensures Considered(r, p) <==> Covers(r.net, p) && p.ones <= r.maxLength
  {
    if r.net.family == p.family && r.net.ones <= p.ones {
      ContainsIsSameBits(r.net, Network(p));
      NetworkKeepsBits(p);
      forall i: nat | i < r.net.ones ensures Bit(Network(p).addr, i) == Bit(p.addr, i) {
      }
    }
  }

  /** Covering ROAs exist, and each has a max length below the announced length. */
  ghost predicate OnlyTooShort(roas: seq<Roa>, p: Prefix) {
    && (exists r :: r in roas && Covers(r.net, p))
    && (forall r :: r in roas && Covers(r.net, p) ==> r.maxLength < p.ones)
  }

  /** Where the scan and the RFC agree, and the one family of routes where they do not. */
  lemma ScanAgainstRfc(roas: seq<Roa>, p: Prefix, asn: nat)
    ensures TableVerdict(roas, p, asn) == Valid <==> RfcState(roas, p, asn) == Valid
    ensures TableVerdict(roas, p, asn) == Invalid ==> RfcState(roas, p, asn) == Invalid
    ensures TableVerdict(roas, p, asn) != RfcState(roas, p, asn) <==> OnlyTooShort(roas, p)
    ensures OnlyTooShort(roas, p) ==>
              TableVerdict(roas, p, asn) == NotFound && RfcState(roas, p, asn) == Invalid
  {
    forall r | r in roas
      ensures Considered(r, p) <==> Covers(r.net, p) && p.ones <= r.maxLength
    {
      ConsideredIsCovering(r, p);
    }
  }

  /** With a table and without the private-space exemption, `require_valid` admits exactly the
      routes the RFC calls Valid. */
  lemma RequireValidIsRfcValid(v: Validator, p: Prefix, asn: nat)
    requires v.enabled && v.roas != [] && v.requireValid
    requires v.allowPrivate ==> !IsDocumentationOrPrivate(Parsed(p), asn)
    ensures Allowed(v, Parsed(p), asn) <==> RfcState(v.roas, p, asn) == Valid
  {
    ScanAgainstRfc(v.roas, p, asn);
  }

  /** Without `require_valid`, a route the RFC calls Invalid is let through exactly when every
      covering ROA has too short a max length. */
  lemma LaxGateAgainstRfc(v: Validator, p: Prefix, asn: nat)
    requires v.enabled && v.roas != [] && !v.requireValid
    requires v.allowPrivate ==> !IsDocumentationOrPrivate(Parsed(p), asn)
    ensures Allowed(v, Parsed(p), asn) <==> RfcState(v.roas, p, asn) != Invalid || OnlyTooShort(v.roas, p)
  {
    ScanAgainstRfc(v.roas, p, asn);
  }

  /** Order and duplicates of the ROAs do not matter. */
  lemma VerdictIgnoresOrder(v: Validator, w: Validator, text: PrefixText, asn: nat)
    requires v.(roas := []) == w.(roas := [])
    requires forall r :: r in v.roas <==> r in w.roas
    ensures Verdict(v, text, asn) == Verdict(w, text, asn)
  {
    assert v.roas == [] <==> w.roas == [] by {
      if v.roas != [] {
        assert v.roas[0] in w.roas;
      }
      if w.roas != [] {
        assert w.roas[0] in v.roas;
      }
    }
  }

  /** A more specific announcement than the only ROA admits: not found here, Invalid in the RFC. */
  lemma TooSpecificIsNotFound()
    ensures var roa := Roa(RawPrefix(V4, [198, 18, 0, 0], 16), 65010, 16);
            var p: Prefix := RawPrefix(V4, [198, 18, 7, 0], 24);
            TableVerdict([roa], p, 65010) == NotFound && RfcState([roa], p, 65010) == Invalid
  {
    var roa := Roa(RawPrefix(V4, [198, 18, 0, 0], 16), 65010, 16);
    var p: Prefix := RawPrefix(V4, [198, 18, 7, 0], 24);
    forall i: nat | i < 16 ensures Bit(roa.net.addr, i) == Bit(p.addr, i) {
      assert roa.net.addr[i / 8] == p.addr[i / 8];
    }
    assert Covers(roa.net, p);
    assert roa in [roa];
    ScanAgainstRfc([roa], p, 65010);
  }

  // ---------------------------------------------------------------- from the configured table

  /** What a configured ROA authorises: its origin may announce what its prefix covers, up to its max
      length, or exactly its own length when it has none. */
  predicate Authorises(c: RoaConfig, p: Prefix, asn: nat) {
    && c.prefix.Parsed? && Covers(c.prefix.prefix, p) && asn == c.asn
    && if c.maxLength == 0 then p.ones == c.prefix.prefix.ones else p.ones <= c.maxLength
  }

  predicate LengthFits(c: RoaConfig, net: Prefix) {
    c.maxLength == 0 || net.ones <= c.maxLength <= 8 * |net.addr|
  }

  /** When a configured ROA is rejected, and why: its prefix first, then its max length, then its AS. */
  lemma RejectedWhen(c: RoaConfig)
    ensures Problem(c) == [] <==> c.prefix.Parsed? && LengthFits(c, c.prefix.prefix) && c.asn != 0
    ensures Problem(c) == [EmptyPrefix] <==> c.prefix.Blank?
    ensures Problem(c) == [BadPrefix] <==> c.prefix.Malformed?
    ensures Problem(c) == [BadMaxLength] <==> c.prefix.Parsed? && !LengthFits(c, c.prefix.prefix)
  {
  }

  lemma NetworkCovers(n: Prefix, p: Prefix)
    ensures Covers(Network(n), p) <==> Covers(n, p)
  {
    if n.family == p.family && n.ones <= p.ones {
      NetworkKeepsBits(n);
      forall i: nat | i < n.ones ensures Bit(Network(n).addr, i) == Bit(n.addr, i) {
      }
    }
  }

  /** A compiled ROA matches exactly what the configured one authorises. */
  lemma CompiledMatches(c: RoaConfig, p: Prefix, asn: nat)
    requires Problem(c) == []
    ensures Matches(Compile(c), p, asn) <==> Authorises(c, p, asn)
    ensures Covers(Compile(c).net, p) <==> Covers(c.prefix.prefix, p)
  {
    NetworkCovers(c.prefix.prefix, p);
  }

  /** The state of section 2 of RFC 6811, read off the configured table. */
  ghost function ConfiguredState(table: seq<RoaConfig>, p: Prefix, asn: nat): Validity {
    if exists i :: 0 <= i < |table| && Authorises(table[i], p, asn) then Valid
    else if exists i :: 0 <= i < |table| && ConfiguredCovers(table[i], p) then Invalid
    else NotFound
  }

  ghost predicate CompiledFrom(table: seq<RoaConfig>, roas: seq<Roa>) {
    |roas| == |table| && forall i | 0 <= i < |table| :: Problem(table[i]) == [] && roas[i] == Compile(table[i])
  }

  lemma SomeMatches(table: seq<RoaConfig>, roas: seq<Roa>, p: Prefix, asn: nat)
    requires CompiledFrom(table, roas)
    ensures (exists r :: r in roas && Matches(r, p, asn)) <==> exists i :: 0 <= i < |table| && Authorises(table[i], p, asn)
  {
    if i :| 0 <= i < |table| && Authorises(table[i], p, asn) {
      CompiledMatches(table[i], p, asn);
      assert roas[i] in roas;
    }
    if r :| r in roas && Matches(r, p, asn) {
      var i :| 0 <= i < |roas| && roas[i] == r;
      CompiledMatches(table[i], p, asn);
    }
  }

  predicate ConfiguredCovers(c: RoaConfig, p: Prefix) {
    c.prefix.Parsed? && Covers(c.prefix.prefix, p)
  }

  lemma SomeCovers(table: seq<RoaConfig>, roas: seq<Roa>, p: Prefix)
    requires CompiledFrom(table, roas)
    ensures (exists r :: r in roas && Covers(r.net, p)) <==> exists i :: 0 <= i < |table| && ConfiguredCovers(table[i], p)
  {
    if i :| 0 <= i < |table| && ConfiguredCovers(table[i], p) {
      CompiledMatches(table[i], p, 0);
      assert roas[i] in roas;
    }
    if r :| r in roas && Covers(r.net, p) {
      var i :| 0 <= i < |roas| && roas[i] == r;
      CompiledMatches(table[i], p, 0);
    }
  }

  /** The compiled table has the state of the configured one for every route. */
  lemma ConfiguredIsRfc(table: seq<RoaConfig>, roas: seq<Roa>, p: Prefix, asn: nat)
    requires CompiledFrom(table, roas)
    ensures RfcState(roas, p, asn) == ConfiguredState(table, p, asn)
  {
    SomeMatches(table, roas, p, asn);
    SomeCovers(table, roas, p);
  }

  /** A scanned route passes iff some configured ROA authorises it, or, without `require_valid`, none
      covers it or all that cover it are too short. */
  ghost predicate TablePasses(v: Validator, table: seq<RoaConfig>, p: Prefix, asn: nat) {
    || (exists i :: 0 <= i < |table| && Authorises(table[i], p, asn))
    || (!v.requireValid && (ConfiguredState(table, p, asn) != Invalid || TooShort(table, p)))
  }

  lemma ScannedGate(v: Validator, table: seq<RoaConfig>, p: Prefix, asn: nat)
    requires v.enabled && table != [] && CompiledFrom(table, v.roas)
    requires v.allowPrivate ==> !IsDocumentationOrPrivate(Parsed(p), asn)
    ensures Allowed(v, Parsed(p), asn) <==> TablePasses(v, table, p, asn)
  {
    ConfiguredIsRfc(table, v.roas, p, asn);
    TooShortIs(table, v.roas, p);
    if v.requireValid {
      RequireValidIsRfcValid(v, p, asn);
    } else {
      LaxGateAgainstRfc(v, p, asn);
    }
  }

  /** The whole gate, from the configuration: everything passes while validation is off, and exempt
      space when that is allowed. Otherwise an empty table lets a route pass unless `require_valid`, text
      that is no prefix never passes a table, and a prefix is scanned. */
  lemma GateFromTheTable(v: Validator, table: seq<RoaConfig>, text: PrefixText, asn: nat)
    requires CompiledFrom(table, v.roas)
    ensures Allowed(v, text, asn) <==>
              || !v.enabled
              || (v.allowPrivate && IsDocumentationOrPrivate(text, asn))
              || (table == [] && !v.requireValid)
              || (table != [] && text.Parsed? && TablePasses(v, table, text.prefix, asn))
  {
    if v.enabled && table != [] && text.Parsed? && !(v.allowPrivate && IsDocumentationOrPrivate(text, asn)) {
      ScannedGate(v, table, text.prefix, asn);
    }
  }

  /** The verdict that is reported, from the configuration: for a scanned prefix the state of RFC 6811,
      but NotFound when all ROAs that cover it are too short. */
  lemma VerdictFromTheTable(v: Validator, table: seq<RoaConfig>, text: PrefixText, asn: nat)
    requires CompiledFrom(table, v.roas)
    ensures var open := !v.enabled || (v.allowPrivate && IsDocumentationOrPrivate(text, asn));
            && (open ==> Verdict(v, text, asn) == Valid)
            && (!open && table == [] ==> Verdict(v, text, asn) == if v.requireValid then NotFound else Valid)
            && (!open && table != [] && !text.Parsed? ==> Verdict(v, text, asn) == Invalid)
            && (!open && table != [] && text.Parsed? ==>
                  Verdict(v, text, asn) ==
                  if TooShort(table, text.prefix) then NotFound else ConfiguredState(table, text.prefix, asn))
  {
    if text.Parsed? {
      ConfiguredIsRfc(table, v.roas, text.prefix, asn);
      TooShortIs(table, v.roas, text.prefix);
      ScanAgainstRfc(v.roas, text.prefix, asn);
    }
  }

  /** Some configured prefix covers the route, and none of those that do admits its length. */
  ghost predicate TooShort(table: seq<RoaConfig>, p: Prefix) {
    && (exists i :: 0 <= i < |table| && ConfiguredCovers(table[i], p))
    && (forall i | 0 <= i < |table| && ConfiguredCovers(table[i], p) :: !Authorises(table[i], p, table[i].asn))
  }

  lemma TooShortIs(table: seq<RoaConfig>, roas: seq<Roa>, p: Prefix)
    requires CompiledFrom(table, roas)
    ensures OnlyTooShort(roas, p) <==> TooShort(table, p)
  {
    SomeCovers(table, roas, p);
    forall i | 0 <= i < |table|
      ensures Covers(roas[i].net, p) <==> ConfiguredCovers(table[i], p)
      ensures ConfiguredCovers(table[i], p) ==> (roas[i].maxLength < p.ones <==> !Authorises(table[i], p, table[i].asn))
    {
      CompiledMatches(table[i], p, table[i].asn);
    }
    assert forall i | 0 <= i < |roas| :: roas[i] in roas;
    if TooShort(table, p) {
      forall r | r in roas && Covers(r.net, p) ensures r.maxLength < p.ones {
        var i :| 0 <= i < |roas| && roas[i] == r;
      }
    }
  }

  // ---------------------------------------------------------------- the exempt space

  /** An IPv4 block. */
  function Block(a: Octet, b: Octet, c: Octet, ones: nat): Prefix
    requires ones <= 32
  {
    RawPrefix(V4, [a, b, c, 0], ones)
  }

  lemma SecondOfTwelve(x: Octet)
    ensures And(16, MaskOctet(12, 1)) == And(x, MaskOctet(12, 1)) <==> 16 <= x <= 31
  {
    var m := MaskOctet(12, 1);
    MaskedOctet(16, 12, 1);
    MaskedOctet(x, 12, 1);
    Sixteenth(x, And(16, m), And(x, m));
  }

  lemma Sixteenth(x: Octet, a: nat, b: nat)
    requires a == 16 && b == x / 16 * 16
    ensures a == b <==> 16 <= x <= 31
  {
  }

  lemma OtherOfTwelve(x: Octet, y: Octet, i: nat)
    requires i != 1
    ensures And(x, MaskOctet(12, i)) == And(y, MaskOctet(12, i)) <==> i > 1 || x == y
  {
    MaskedOctet(x, 12, i);
    MaskedOctet(y, 12, i);
  }

  /** What 172.16.0.0/12 asks of octet `i`. */
  predicate InTwelveAt(x: Octet, i: nat) {
    if i == 0 then x == 172 else if i == 1 then 16 <= x <= 31 else true
  }

  lemma TwelveOctet(n: Prefix, x: Octet, i: nat)
    requires n == Block(172, 16, 0, 12) && i < 4
    ensures And(n.addr[i], MaskOctet(n.ones, i)) == And(x, MaskOctet(n.ones, i)) <==> InTwelveAt(x, i)
  {
    if i == 1 {
      SecondOfTwelve(x);
    } else {
      OtherOfTwelve(n.addr[i], x, i);
    }
  }

  lemma TwelveContains(n: Prefix, p: Prefix)
    requires n == Block(172, 16, 0, 12) && p.family == V4
    ensures Contains(n, p) <==> forall i | 0 <= i < |n.addr| :: InTwelveAt(p.addr[i], i)
  {
    forall i | 0 <= i < |n.addr|
      ensures And(n.addr[i], MaskOctet(n.ones, i)) == And(p.addr[i], MaskOctet(n.ones, i)) <==> InTwelveAt(p.addr[i], i)
    {
      TwelveOctet(n, p.addr[i], i);
    }
  }

  lemma InTwelve(p: Prefix)
    ensures Contains(Block(172, 16, 0, 12), p) <==> p.family == V4 && p.addr[0] == 172 && 16 <= p.addr[1] <= 31
  {
    if p.family == V4 {
      TwelveContains(Block(172, 16, 0, 12), p);
      assert InTwelveAt(p.addr[0], 0) <==> p.addr[0] == 172;
      assert InTwelveAt(p.addr[1], 1) <==> 16 <= p.addr[1] <= 31;
    }
  }

  lemma InEight(a: Octet, p: Prefix)
    ensures Contains(Block(a, 0, 0, 8), p) <==> p.family == V4 && p.addr[0] == a
  {
    InBlock(Block(a, 0, 0, 8), p, 1);
  }

  lemma InSixteen(a: Octet, b: Octet, p: Prefix)
    ensures Contains(Block(a, b, 0, 16), p) <==> p.family == V4 && p.addr[0] == a && p.addr[1] == b
  {
    var n := Block(a, b, 0, 16);
    InBlock(n, p, 2);
    assert n.addr[0] == a && n.addr[1] == b;
  }

  lemma InTwentyFour(a: Octet, b: Octet, c: Octet, p: Prefix)
    ensures Contains(Block(a, b, c, 24), p) <==> p.family == V4 && p.addr[0] == a && p.addr[1] == b && p.addr[2] == c
  {
    var n := Block(a, b, c, 24);
    InBlock(n, p, 3);
    assert n.addr[0] == a && n.addr[1] == b && n.addr[2] == c;
  }

  /** `p` is an address of private use, or one for documentation. */
  predicate InPrivate(p: Prefix) {
    Contains(Block(10, 0, 0, 8), p) || Contains(Block(172, 16, 0, 12), p) || Contains(Block(192, 168, 0, 16), p)
  }

  predicate InDocumentation(p: Prefix) {
    Contains(Block(192, 0, 2, 24), p) || Contains(Block(198, 51, 100, 24), p) || Contains(Block(203, 0, 113, 24), p)
  }

  lemma PrivateOctets(p: Prefix)
    ensures InPrivate(p) <==>
              p.family == V4 && (|| p.addr[0] == 10 || (p.addr[0] == 172 && 16 <= p.addr[1] <= 31)
                                 || (p.addr[0] == 192 && p.addr[1] == 168))
  {
    InEight(10, p);
    InTwelve(p);
    InSixteen(192, 168, p);
  }

  lemma DocumentationOctets(p: Prefix)
    ensures InDocumentation(p) <==>
              p.family == V4 && (|| (p.addr[0] == 192 && p.addr[1] == 0 && p.addr[2] == 2)
                                 || (p.addr[0] == 198 && p.addr[1] == 51 && p.addr[2] == 100)
                                 || (p.addr[0] == 203 && p.addr[1] == 0 && p.addr[2] == 113))
  {
    InTwentyFour(192, 0, 2, p);
    InTwentyFour(198, 51, 100, p);
    InTwentyFour(203, 0, 113, p);
  }

  /** The exemption is for addresses in one of six IPv4 blocks, and for private AS numbers. */
  lemma ExemptSpace(p: Prefix, asn: nat)
    ensures IsDocumentationOrPrivate(Parsed(p), asn) <==>
              64512 <= asn <= 65534 || 4200000000 <= asn <= 4294967294 || InPrivate(p) || InDocumentation(p)
  {
    PrivateOctets(p);
    DocumentationOctets(p);
  }
}
