/** Address prefixes as `net.ParseCIDR` returns them, with octet-wise masks. */
module Cidr {
  import opened Octets

  datatype Family = V4 | V6 {
    /** Octets in an address. */
    function Width(): nat {
      if V4? then 4 else 16
    }
  }

  /** An address and a mask of `ones` bits; host bits of the address may be set. */
  datatype RawPrefix = RawPrefix(family: Family, addr: seq<Octet>, ones: nat) {
    predicate WellFormed() {
      |addr| == family.Width() && ones <= 8 * family.Width()
    }
  }

  type Prefix = p: RawPrefix | p.WellFormed() witness RawPrefix(V4, [0, 0, 0, 0], 0)

  /** Prefix text after TrimSpace and ParseCIDR. */
  datatype PrefixText = Blank | Malformed | Parsed(prefix: Prefix)

  /** Bits of octet `i` covered by a mask of `ones` bits. */
  function Covered(ones: nat, i: nat): (k: nat)
    ensures k <= 8
  {
    if ones <= 8 * i then 0 else if ones >= 8 * i + 8 then 8 else ones - 8 * i
  }

  /** Octet `i` of net.CIDRMask(ones, _). */
  function MaskOctet(ones: nat, i: nat): Octet {
    HighBits(Covered(ones, i))
  }

  /** IP.Mask. */
  function ApplyMask(addr: seq<Octet>, ones: nat): (r: seq<Octet>)
    ensures |r| == |addr|
    ensures forall i | 0 <= i < |addr| :: r[i] == And(addr[i], MaskOctet(ones, i))
  {
    seq(|addr|, i requires 0 <= i < |addr| => And(addr[i], MaskOctet(ones, i)) as Octet)
  }

  /** The network of a prefix: host bits cleared. */
  function Network(p: Prefix): Prefix {
    p.(addr := ApplyMask(p.addr, p.ones))
  }

  /** IPNet.Contains. */
  predicate Contains(n: Prefix, ip: Prefix) {
    && n.family == ip.family
    && forall i | 0 <= i < |n.addr| ::
         And(n.addr[i], MaskOctet(n.ones, i)) == And(ip.addr[i], MaskOctet(n.ones, i))
  }

  predicate SameBits(a: Prefix, b: Prefix, n: nat)
    requires a.family == b.family && n <= 8 * a.family.Width()
  {
    forall i: nat | i < n :: Bit(a.addr, i) == Bit(b.addr, i)
  }

  /** Section 2 of RFC 6811: `p` is covered by `vrp`. */
  predicate Covers(vrp: Prefix, p: Prefix) {
    vrp.family == p.family && vrp.ones <= p.ones && SameBits(vrp, p, vrp.ones)
  }

  lemma OctetOfBit(a: Prefix, ones: nat, i: nat)
    requires i < ones <= 8 * |a.addr|
    ensures i / 8 < |a.addr| && i % 8 < Covered(ones, i / 8)
  {
  }

  /** The octet-wise mask comparison compares exactly the first `ones` bits. */
  lemma ContainsIsSameBits(n: Prefix, ip: Prefix)
    ensures Contains(n, ip) <==> n.family == ip.family && SameBits(n, ip, n.ones)
  {
    if n.family == ip.family {
      forall i | 0 <= i < |n.addr|
        ensures And(n.addr[i], MaskOctet(n.ones, i)) == And(ip.addr[i], MaskOctet(n.ones, i))
           <==> forall j | 0 <= j < Covered(n.ones, i) :: OctetBit(n.addr[i], j) == OctetBit(ip.addr[i], j)
      {
        SameHighBits(n.addr[i], ip.addr[i], Covered(n.ones, i));
      }
      if Contains(n, ip) {
        forall i: nat | i < n.ones ensures Bit(n.addr, i) == Bit(ip.addr, i) {
          OctetOfBit(n, n.ones, i);
        }
      }
      if SameBits(n, ip, n.ones) {
        forall i, j | 0 <= i < |n.addr| && 0 <= j < Covered(n.ones, i)
          ensures OctetBit(n.addr[i], j) == OctetBit(ip.addr[i], j)
        {
          var b := 8 * i + j;
          assert b / 8 == i && b % 8 == j;
          assert Bit(n.addr, b) == Bit(ip.addr, b);
        }
      }
    }
  }

  lemma AndTwice(b: Octet, k: nat)
    requires k <= 8
    ensures And(And(b, HighBits(k)), HighBits(k)) == And(b, HighBits(k))
  {
    AndHighBits(b, k);
    var p := Pow2(8 - k);
    var c := b / p * p;
    AndHighBits(And(b, HighBits(k)), k);
    DivUnique(c, p, b / p, 0);
  }

  /** Clearing host bits keeps the bits of the prefix. */
  lemma NetworkKeepsBits(p: Prefix)
    ensures SameBits(Network(p), p, p.ones)
  {
    forall i | 0 <= i < |p.addr|
      ensures And(Network(p).addr[i], MaskOctet(p.ones, i)) == And(p.addr[i], MaskOctet(p.ones, i))
    {
      AndTwice(p.addr[i], Covered(p.ones, i));
    }
    ContainsIsSameBits(Network(p), p);
  }

  // ---------------------------------------------------------------- blocks of whole octets

  lemma MaskedOctet(b: Octet, ones: nat, i: nat)
    ensures Covered(ones, i) == 8 ==> And(b, MaskOctet(ones, i)) == b
    ensures Covered(ones, i) == 0 ==> And(b, MaskOctet(ones, i)) == 0
    ensures Covered(ones, i) == 4 ==> And(b, MaskOctet(ones, i)) == b / 16 * 16
  {
    var k := Covered(ones, i);
    AndHighBits(b, k);
    Pow2Value(8 - k);
  }

  /** A block of whole octets. */
  lemma InBlock(n: Prefix, p: Prefix, k: nat)
    requires n.ones == 8 * k && k <= |n.addr|
    ensures Contains(n, p) <==> n.family == p.family && forall i | 0 <= i < k :: n.addr[i] == p.addr[i]
  {
    if n.family == p.family {
      forall i | 0 <= i < |n.addr|
        ensures And(n.addr[i], MaskOctet(n.ones, i)) == And(p.addr[i], MaskOctet(n.ones, i))
           <==> i >= k || n.addr[i] == p.addr[i]
      {
        MaskedOctet(n.addr[i], n.ones, i);
        MaskedOctet(p.addr[i], n.ones, i);
      }
    }
  }
}
