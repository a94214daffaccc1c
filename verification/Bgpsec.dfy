/** Octets that the BGPsec origin signer feeds to the hash and puts on the wire. The hash and
    ECDSA themselves are abstract: a signature is a pair of integers from outside. */
module Bgpsec {
  import opened Octets
  import opened Cidr

  datatype Option<+T> = None | Some(value: T)

  const ALGORITHM_SUITE: Octet := 1

  // ---------------------------------------------------------------- NLRI

  datatype Nlri = Nlri(afi: nat, safi: Octet, octets: seq<Octet>)

  function ByteLen(ones: nat): nat {
    (ones + 7) / 8
  }

  /** An IPv6 network inside ::ffff:0:0/96. */
  predicate IsMapped(p: Prefix) {
    p.family.V6? && p.addr[..12] == [0, 0, 0, 0, 0, 0, 0, 0, 0, 0, 255, 255]
  }

  function ClearTail(s: seq<Octet>, ones: nat): (r: seq<Octet>)
    requires |s| == ByteLen(ones)
    ensures |r| == |s|
  {
    if ones % 8 == 0 || s == [] then s
    else s[|s| - 1 := And(s[|s| - 1], HighBits(ones % 8)) as Octet]
  }

  /** Length octet and prefix octets; None for a family the encoder refuses. */
  function EncodeNlri(text: PrefixText): Option<Nlri> {
    if !text.Parsed? || IsMapped(Network(text.prefix)) then None
    else
      var net := Network(text.prefix);
      var body := ClearTail(net.addr[..ByteLen(net.ones)], net.ones);
      Some(Nlri(if net.family.V4? then 1 else 2, 1, [net.ones as Octet] + body))
  }

  function FamilyOf(afi: nat): Option<Family> {
    if afi == 1 then Some(V4) else if afi == 2 then Some(V6) else None
  }

  /** Reading an NLRI back. */
  function DecodeNlri(afi: nat, s: seq<Octet>): Option<Prefix> {
    var f := FamilyOf(afi);
    if f.None? || s == [] || s[0] > 8 * f.value.Width() || |s| != 1 + ByteLen(s[0]) then None
    else Some(RawPrefix(f.value, s[1..] + Zeros(f.value.Width() - ByteLen(s[0])), s[0]))
  }

  lemma MaskedTail(p: Prefix)
    ensures ByteLen(p.ones) <= |p.addr|
    ensures forall i | ByteLen(p.ones) <= i < |p.addr| :: Network(p).addr[i] == 0
  {
    forall i | ByteLen(p.ones) <= i < |p.addr| ensures Network(p).addr[i] == 0 {
      Pow2Value(8);
      AndHighBits(p.addr[i], 0);
      assert Covered(p.ones, i) == 0;
      SmallDiv(p.addr[i]);
    }
  }

  lemma SmallDiv(b: Octet)
    ensures b / 256 * 256 == 0
  {
  }

  /** The encoder's clearing of the last octet finds nothing left to clear. */
  lemma TailIsClear(p: Prefix)
    ensures var net := Network(p);
            ByteLen(p.ones) <= |net.addr|
            && ClearTail(net.addr[..ByteLen(p.ones)], p.ones) == net.addr[..ByteLen(p.ones)]
  {
    var n := ByteLen(p.ones);
    if p.ones % 8 != 0 {
      assert Covered(p.ones, n - 1) == p.ones % 8;
      AndTwice(p.addr[n - 1], p.ones % 8);
      assert Network(p).addr[..n][n - 1] == Network(p).addr[n - 1];
    }
  }

  /** The NLRI decodes to the canonical prefix. */
  lemma NlriRoundTrip(p: Prefix)
    requires !IsMapped(Network(p))
    ensures var e := EncodeNlri(Parsed(p));
            e.Some? && DecodeNlri(e.value.afi, e.value.octets) == Some(Network(p))
  {
    var net := Network(p);
    var n := ByteLen(p.ones);
    TailIsClear(p);
    MaskedTail(p);
    var e := EncodeNlri(Parsed(p)).value;
    assert e.octets[1..] == net.addr[..n];
    assert net.addr[..n] + Zeros(|net.addr| - n) == net.addr;
  }

  // ---------------------------------------------------------------- hash input

  type U32Nat = x: nat | x < 0x1_0000_0000

  function HashInput(targetAsn: U32Nat, originAsn: U32Nat, n: Nlri): seq<Octet>
    requires n.afi < 0x1_0000
  {
    U32(targetAsn) + [1, 0] + U32(originAsn) + [ALGORITHM_SUITE] + U16(n.afi) + [n.safi] + n.octets
  }

  lemma HashInputFields(targetAsn: U32Nat, originAsn: U32Nat, n: Nlri)
    requires n.afi < 0x1_0000
    ensures var h := HashInput(targetAsn, originAsn, n);
            && |h| == 14 + |n.octets|
            && FromU32(h[..4]) == targetAsn && FromU32(h[6..10]) == originAsn
            && FromU16(h[11..13]) == n.afi && h[13] == n.safi && h[14..] == n.octets
  {
    var h := HashInput(targetAsn, originAsn, n);
    assert h[..4] == U32(targetAsn);
    assert h[6..10] == U32(originAsn);
    assert h[11..13] == U16(n.afi);
    assert h[14..] == n.octets;
    U32RoundTrip(targetAsn);
    U32RoundTrip(originAsn);
  }

  /** The hashed octets of section 4.2 of RFC 8205 determine target AS, origin AS and the
      canonical prefix with its family. */
  lemma HashInputInjective(t: U32Nat, o: U32Nat, p: Prefix, t': U32Nat, o': U32Nat, p': Prefix)
    requires !IsMapped(Network(p)) && !IsMapped(Network(p'))
    ensures HashInput(t, o, EncodeNlri(Parsed(p)).value) == HashInput(t', o', EncodeNlri(Parsed(p')).value)
       <==> t == t' && o == o' && Network(p) == Network(p')
  {
    var n, n' := EncodeNlri(Parsed(p)).value, EncodeNlri(Parsed(p')).value;
    NlriRoundTrip(p);
    NlriRoundTrip(p');
    HashInputFields(t, o, n);
    HashInputFields(t', o', n');
  }

  // ---------------------------------------------------------------- r || s

  const P256_RANGE: nat := 0x1_0000_0000_0000_0000_0000_0000_0000_0000_0000_0000_0000_0000_0000_0000_0000_0000

  lemma RangeIs32Octets()
    ensures Pow256(32) == P256_RANGE
  {
    Pow256Step(0);
    Pow256Step(4);
    Pow256Step(8);
    Pow256Step(12);
    Pow256Step(16);
    Pow256Step(20);
    Pow256Step(24);
    Pow256Step(28);
  }

  lemma FitsIn32Octets(n: nat)
    requires n < P256_RANGE
    ensures |Bytes(n)| <= 32
  {
    RangeIs32Octets();
    BytesLength(n, 32);
  }

  /** The two integers, each right-aligned in 32 octets. */
  method EncodeRS(r: nat, s: nat) returns (out: seq<Octet>)
    requires r < P256_RANGE && s < P256_RANGE
    ensures out == RS(r, s)
  {
    var a := new Octet[64](i => 0);
    var rb, sb := Bytes(r), Bytes(s);
    FitsIn32Octets(r);
    FitsIn32Octets(s);
    var i := 0;
    while i < |rb|
      invariant 0 <= i <= |rb|
      invariant forall j | 0 <= j < 64 :: a[j] == if 32 - |rb| <= j < 32 - |rb| + i then rb[j - (32 - |rb|)] else 0
    {
      a[32 - |rb| + i] := rb[i];
      i := i + 1;
    }
    i := 0;
    while i < |sb|
      invariant 0 <= i <= |sb|
      invariant forall j | 0 <= j < 64 ::
                  a[j] == if 32 - |rb| <= j < 32 then rb[j - (32 - |rb|)]
                          else if 64 - |sb| <= j < 64 - |sb| + i then sb[j - (64 - |sb|)] else 0
    {
      a[64 - |sb| + i] := sb[i];
      i := i + 1;
    }
    out := a[..];
  }

  function RS(r: nat, s: nat): (out: seq<Octet>)
    requires r < P256_RANGE && s < P256_RANGE
    ensures |out| == 64
  {
    FitsIn32Octets(r);
    FitsIn32Octets(s);
    Zeros(32 - |Bytes(r)|) + Bytes(r) + Zeros(32 - |Bytes(s)|) + Bytes(s)
  }

  /** The halves the verifier reads are the integers the signer wrote. */
  lemma RSRoundTrip(r: nat, s: nat)
    requires r < P256_RANGE && s < P256_RANGE
    ensures SetBytes(RS(r, s)[..32]) == r && SetBytes(RS(r, s)[32..]) == s
  {
    FitsIn32Octets(r);
    FitsIn32Octets(s);
    var a := Zeros(32 - |Bytes(r)|) + Bytes(r);
    var b := Zeros(32 - |Bytes(s)|) + Bytes(s);
    assert RS(r, s) == a + b && |a| == 32;
    assert RS(r, s)[..32] == a && RS(r, s)[32..] == b;
    HalfRoundTrip(r);
    HalfRoundTrip(s);
  }

  lemma HalfRoundTrip(r: nat)
    requires |Bytes(r)| <= 32
    ensures SetBytes(Zeros(32 - |Bytes(r)|) + Bytes(r)) == r
  {
    SetBytesPadded(32 - |Bytes(r)|, Bytes(r));
    BytesRoundTrip(r);
  }

  // ---------------------------------------------------------------- BGPsec_Path

  datatype OriginSignature = OriginSignature(
    targetAsn: U32Nat, originAsn: U32Nat, pCount: Octet, flags: Octet, suite: Octet,
    prefix: PrefixText, ski: seq<Octet>, signature: seq<Octet>, hashInput: seq<Octet>)

  /** uint16 of a length. */
  function Len16(n: nat): nat {
    n % 0x1_0000
  }

  /** Secure_Path and one Signature_Block. */
  function EncodePath(sig: OriginSignature): seq<Octet> {
    var segment := sig.ski + U16(Len16(|sig.signature|)) + sig.signature;
    var body := [sig.suite] + segment;
    U16(8) + [sig.pCount, sig.flags] + U32(sig.originAsn) + U16(Len16(2 + |body|)) + body
  }

  datatype PathFields = PathFields(pCount: Octet, flags: Octet, originAsn: nat, suite: Octet,
                                   ski: seq<Octet>, signature: seq<Octet>)

  /** A reader of sections 3.1 and 3.2 of RFC 8205 that trusts only the embedded lengths and
      accepts only if they account for every octet. */
  function ParsePath(w: seq<Octet>): Option<PathFields> {
    if |w| < 8 || FromU16(w[..2]) != 8 then None
    else
      var block := w[8..];
      if |block| < 3 || FromU16(block[..2]) != |block| then None
      else
        var segment := block[3..];
        if |segment| < 22 || FromU16(segment[20..22]) != |segment| - 22 then None
        else Some(PathFields(w[2], w[3], FromU32(w[4..8]), block[2], segment[..20], segment[22..]))
  }

  lemma PathSlices(sig: OriginSignature)
    requires |sig.ski| == 20
    ensures var w := EncodePath(sig);
            var segment := sig.ski + U16(Len16(|sig.signature|)) + sig.signature;
            && |w| >= 33
            && w[..2] == U16(8) && w[2] == sig.pCount && w[3] == sig.flags && w[4..8] == U32(sig.originAsn)
            && w[8..][..2] == U16(Len16(3 + |segment|)) && w[8..][2] == sig.suite && w[8..][3..] == segment
            && segment[..20] == sig.ski && segment[20..22] == U16(Len16(|sig.signature|))
            && segment[22..] == sig.signature && |w[8..]| == 3 + |segment|
  {
    var segment := sig.ski + U16(Len16(|sig.signature|)) + sig.signature;
    var head := U16(8) + [sig.pCount, sig.flags] + U32(sig.originAsn);
    var block := U16(Len16(3 + |segment|)) + ([sig.suite] + segment);
    assert EncodePath(sig) == head + block;
    assert (head + block)[8..] == block;
    assert block[3..] == segment;
  }

  /** The reader recovers every field of the encoded path, with no octet left over, exactly when
      the block length fits its 16 bits. */
  lemma PathRoundTrip(sig: OriginSignature)
    requires |sig.ski| == 20
    ensures ParsePath(EncodePath(sig)) ==
            if |sig.signature| + 25 < 0x1_0000
            then Some(PathFields(sig.pCount, sig.flags, sig.originAsn, sig.suite, sig.ski, sig.signature))
            else None
  {
    PathSlices(sig);
    U32RoundTrip(sig.originAsn);
  }

  // ---------------------------------------------------------------- signing

  /** What ECDSA produced for a digest: a pair of integers, or an error. */
  datatype EcdsaResult = EcdsaFailed | EcdsaPair(r: nat, s: nat)

  /** The signer: its AS, its key identifier, and verification under its public key of a pair
      (r, s) for the digest of some octets. */
  datatype Signer = Signer(asn: U32Nat, ski: seq<Octet>, verify: (seq<Octet>, nat, nat) -> bool)

  /** SignOrigin, given what ECDSA returned. */
  method SignOrigin(signer: Signer, prefix: PrefixText, targetAsn: U32Nat, ecdsa: EcdsaResult)
      returns (out: Option<OriginSignature>)
    requires |signer.ski| == 20
    requires ecdsa.EcdsaPair? ==> ecdsa.r < P256_RANGE && ecdsa.s < P256_RANGE
    ensures out == Signed(signer, prefix, targetAsn, ecdsa)
  {
    if targetAsn == 0 {
      return None;
    }
    var nlri := EncodeNlri(prefix);
    if nlri.None? {
      return None;
    }
    var hashIn: seq<Octet> := [];
    hashIn := hashIn + U32(targetAsn);
    hashIn := hashIn + [1, 0];
    hashIn := hashIn + U32(signer.asn);
    hashIn := hashIn + [ALGORITHM_SUITE];
    hashIn := hashIn + U16(nlri.value.afi);
    hashIn := hashIn + [nlri.value.safi];
    hashIn := hashIn + nlri.value.octets;
    assert hashIn == HashInput(targetAsn, signer.asn, nlri.value);
    if ecdsa.EcdsaFailed? {
      return None;
    }
    var sig := EncodeRS(ecdsa.r, ecdsa.s);
    return Some(OriginSignature(targetAsn, signer.asn, 1, 0, ALGORITHM_SUITE, prefix, signer.ski, sig, hashIn));
  }

  function Signed(signer: Signer, prefix: PrefixText, targetAsn: U32Nat, ecdsa: EcdsaResult): Option<OriginSignature>
    requires ecdsa.EcdsaPair? ==> ecdsa.r < P256_RANGE && ecdsa.s < P256_RANGE
  {
    var nlri := EncodeNlri(prefix);
    if targetAsn == 0 || nlri.None? || ecdsa.EcdsaFailed? then None
    else Some(OriginSignature(targetAsn, signer.asn, 1, 0, ALGORITHM_SUITE, prefix, signer.ski,
                              RS(ecdsa.r, ecdsa.s), HashInput(targetAsn, signer.asn, nlri.value)))
  }

  /** VerifyOrigin. */
  predicate VerifyOrigin(signer: Signer, sig: OriginSignature) {
    && |sig.hashInput| != 0 && |sig.signature| == 64
    && signer.verify(sig.hashInput, SetBytes(sig.signature[..32]), SetBytes(sig.signature[32..]))
  }

  /** The self-check verifies exactly the pair ECDSA produced, over exactly the octets hashed. */
  lemma SelfCheckSeesThePair(signer: Signer, prefix: PrefixText, targetAsn: U32Nat, ecdsa: EcdsaResult)
    requires ecdsa.EcdsaPair? ==> ecdsa.r < P256_RANGE && ecdsa.s < P256_RANGE
    requires Signed(signer, prefix, targetAsn, ecdsa).Some?
    ensures var sig := Signed(signer, prefix, targetAsn, ecdsa).value;
            VerifyOrigin(signer, sig) <==> signer.verify(sig.hashInput, ecdsa.r, ecdsa.s)
  {
    RSRoundTrip(ecdsa.r, ecdsa.s);
    HashInputFields(targetAsn, signer.asn, EncodeNlri(prefix).value);
  }

  // ---------------------------------------------------------------- what a signed route carries

  /** The IPv4-mapped addresses, ::ffff:0:0/96. */
  const MAPPED: Prefix := RawPrefix(V6, [0, 0, 0, 0, 0, 0, 0, 0, 0, 0, 255, 255, 0, 0, 0, 0], 96)

  lemma MappedIsBlock(p: Prefix)
    ensures IsMapped(p) <==> Contains(MAPPED, p)
  {
    InBlock(MAPPED, p, 12);
    if p.family.V6? {
      assert p.addr[..12] == MAPPED.addr[..12] <==> forall i | 0 <= i < 12 :: MAPPED.addr[i] == p.addr[i] by {
        assert forall i | 0 <= i < 12 :: p.addr[..12][i] == p.addr[i] && MAPPED.addr[..12][i] == MAPPED.addr[i];
      }
    }
  }

  /** A prefix has an NLRI unless its network is IPv4-mapped; its family is the address family of section
      4.2 of RFC 8205, for unicast, and its first octet the prefix length. */
  lemma NlriFields(p: Prefix)
    ensures EncodeNlri(Parsed(p)).Some? <==> !Contains(MAPPED, Network(p))
    ensures EncodeNlri(Parsed(p)).Some? ==>
              var n := EncodeNlri(Parsed(p)).value;
              && n.afi == (if p.family.V4? then 1 else 2) && n.safi == 1
              && |n.octets| == 1 + ByteLen(p.ones) && n.octets[0] == p.ones
    ensures EncodeNlri(Blank).None? && EncodeNlri(Malformed).None?
  {
    MappedIsBlock(Network(p));
  }

  /** The path of a fresh signature: one hop of the signer's AS without flags, under suite 1 and the
      signer's key identifier, with the 64 octets of the pair. */
  lemma SignedPath(signer: Signer, prefix: PrefixText, targetAsn: U32Nat, ecdsa: EcdsaResult)
    requires |signer.ski| == 20 && (ecdsa.EcdsaPair? ==> ecdsa.r < P256_RANGE && ecdsa.s < P256_RANGE)
    requires Signed(signer, prefix, targetAsn, ecdsa).Some?
    ensures var sig := Signed(signer, prefix, targetAsn, ecdsa).value;
            && ecdsa.EcdsaPair? && sig.prefix == prefix && sig.targetAsn == targetAsn
            && ParsePath(EncodePath(sig)) == Some(PathFields(1, 0, signer.asn, 1, signer.ski, RS(ecdsa.r, ecdsa.s)))
  {
    PathRoundTrip(Signed(signer, prefix, targetAsn, ecdsa).value);
  }
}
