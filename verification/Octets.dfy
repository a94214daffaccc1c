/** Octets, bit-wise masking and big-endian integers, on unbounded integers. */
module Octets {

  type Octet = x: nat | x < 256

  function Pow2(n: nat): (r: nat)
    ensures r >= 1
  {
    if n == 0 then 1 else 2 * Pow2(n - 1)
  }

  /** Bit-wise and. */
  function And(a: nat, b: nat): (r: nat)
    ensures r <= a
  {
    if a == 0 || b == 0 then 0 else 2 * And(a / 2, b / 2) + a % 2 * (b % 2)
  }

  // ---------------------------------------------------------------- masks

  /** The octet whose `k` high bits are set. */
  function HighBits(k: nat): Octet
    requires k <= 8
  {
    Pow2Value(8 - k);
    256 - Pow2(8 - k)
  }

  lemma Pow2Value(n: nat)
    requires n <= 8
    ensures Pow2(n) == [1, 2, 4, 8, 16, 32, 64, 128, 256][n]
  {
    if n > 0 {
      Pow2Value(n - 1);
    }
  }

  /** The low `j` bits of a mask clear, all others up to bit `j + k` set. */
  function Mask(j: nat, k: nat): nat {
    if j > 0 then 2 * Mask(j - 1, k) else if k > 0 then 2 * Mask(0, k - 1) + 1 else 0
  }

  lemma {:induction false} MaskValue(j: nat, k: nat)
    ensures Mask(j, k) == Pow2(j + k) - Pow2(j)
  {
    if j > 0 {
      MaskValue(j - 1, k);
    } else if k > 0 {
      MaskValue(0, k - 1);
    }
  }

  lemma {:induction false} AndOnes(b: nat, k: nat)
    requires b < Pow2(k)
    ensures And(b, Mask(0, k)) == b
  {
    if k > 0 {
      AndOnes(b / 2, k - 1);
    }
  }

  lemma AndEven(b: nat, m: nat)
    ensures And(b, 2 * m) == 2 * And(b / 2, m)
  {
    assert 2 * m / 2 == m && 2 * m % 2 == 0;
  }

  lemma {:induction false} AndMask(b: nat, j: nat, k: nat)
    requires b < Pow2(j + k)
    ensures And(b, Mask(j, k)) == b / Pow2(j) * Pow2(j)
  {
    if j > 0 {
      AndMask(b / 2, j - 1, k);
      AndEven(b, Mask(j - 1, k));
      HalfDiv(b, Pow2(j - 1));
      DoubleMul(b / 2 / Pow2(j - 1), Pow2(j - 1));
    } else {
      AndOnes(b, k);
      assert Pow2(0) == 1;
    }
  }

  lemma HalfDiv(b: nat, p: nat)
    requires p > 0
    ensures b / (2 * p) == b / 2 / p
  {
    var q := b / 2 / p;
    var r := b / 2 % p;
    assert b / 2 == q * p + r;
    assert b == 2 * (q * p + r) + b % 2;
    assert b == q * (2 * p) + (2 * r + b % 2);
    DivUnique(b, 2 * p, q, 2 * r + b % 2);
  }

  lemma MulStep(a: nat, b: nat, d: nat)
    requires a < b
    ensures a * d + d <= b * d
  {
    assert b * d == a * d + d + (b - a - 1) * d;
  }

  lemma DivUnique(b: nat, d: nat, q: nat, r: nat)
    requires d > 0 && r < d && b == q * d + r
    ensures b / d == q && b % d == r
  {
    var q' := b / d;
    assert b == q' * d + b % d;
    if q' < q {
      MulStep(q', q, d);
    } else if q < q' {
      MulStep(q, q', d);
    }
  }

  lemma DoubleMul(q: nat, p: nat)
    ensures 2 * (q * p) == q * (2 * p)
  {
  }

  /** Masking an octet with its `k` high bits clears the other bits. */
  lemma AndHighBits(b: Octet, k: nat)
    requires k <= 8
    ensures And(b, HighBits(k)) == b / Pow2(8 - k) * Pow2(8 - k)
  {
    HighBitsMask(k);
    AndMask(b, 8 - k, k);
  }

  lemma HighBitsMask(k: nat)
    requires k <= 8
    ensures HighBits(k) == Mask(8 - k, k) && Pow2(8 - k + k) == 256
  {
    Pow2Value(8);
    Pow2Value(8 - k);
    MaskValue(8 - k, k);
  }

  // ---------------------------------------------------------------- bits of an address

  /** Bit `i` of an octet sequence, most significant first. */
  function Bit(a: seq<Octet>, i: nat): nat
    requires i < 8 * |a|
  {
    OctetBit(a[i / 8], i % 8)
  }

  function OctetBit(b: Octet, i: nat): nat
    requires i < 8
  {
    b / Pow2(7 - i) % 2
  }

  lemma {:induction false} SameHighBits(x: Octet, y: Octet, k: nat)
    requires k <= 8
    ensures And(x, HighBits(k)) == And(y, HighBits(k))
       <==> forall i | 0 <= i < k :: OctetBit(x, i) == OctetBit(y, i)
  {
    SameMasked(x, y, k);
    SameQuotient(x, y, k);
  }

  lemma SameMasked(x: Octet, y: Octet, k: nat)
    requires k <= 8
    ensures And(x, HighBits(k)) == And(y, HighBits(k)) <==> x / Pow2(8 - k) == y / Pow2(8 - k)
  {
    var a := HighQuotient(x, k);
    var b := HighQuotient(y, k);
    SameProducts(And(x, HighBits(k)), And(y, HighBits(k)), a, b, Pow2(8 - k));
  }

  lemma HighQuotient(b: Octet, k: nat) returns (q: nat)
    requires k <= 8
    ensures q == b / Pow2(8 - k) && And(b, HighBits(k)) == q * Pow2(8 - k)
  {
    AndHighBits(b, k);
    q := b / Pow2(8 - k);
  }

  lemma SameProducts(u: nat, v: nat, a: nat, b: nat, p: nat)
    requires p > 0 && u == a * p && v == b * p
    ensures u == v <==> a == b
  {
    MulCancel(a, b, p);
  }

  lemma MulCancel(a: nat, b: nat, p: nat)
    requires p > 0
    ensures a * p == b * p <==> a == b
  {
    if a < b {
      MulStep(a, b, p);
    } else if b < a {
      MulStep(b, a, p);
    }
  }

  lemma {:induction false} SameQuotient(x: Octet, y: Octet, k: nat)
    requires k <= 8
    ensures x / Pow2(8 - k) == y / Pow2(8 - k)
       <==> forall i | 0 <= i < k :: OctetBit(x, i) == OctetBit(y, i)
  {
    if k == 0 {
      Pow2Value(8);
    } else {
      SameQuotient(x, y, k - 1);
      QuotientStep(x, 8 - k);
      QuotientStep(y, 8 - k);
      assert OctetBit(x, k - 1) == x / Pow2(8 - k) % 2;
      assert OctetBit(y, k - 1) == y / Pow2(8 - k) % 2;
    }
  }

  lemma QuotientStep(x: nat, n: nat)
    ensures x / Pow2(n) == 2 * (x / Pow2(n + 1)) + x / Pow2(n) % 2
  {
    var p := Pow2(n);
    DivDiv(x, p);
  }

  lemma DivDiv(x: nat, p: nat)
    requires p > 0
    ensures x / p / 2 == x / (2 * p)
  {
    var q := x / p;
    assert x == q / 2 * (2 * p) + (q % 2 * p + x % p) by {
      assert q == 2 * (q / 2) + q % 2;
      assert x == q * p + x % p;
      assert q * p == (2 * (q / 2) + q % 2) * p == q / 2 * (2 * p) + q % 2 * p;
    }
    assert q % 2 * p <= p;
    DivUnique(x, 2 * p, q / 2, q % 2 * p + x % p);
  }

  // ---------------------------------------------------------------- big-endian integers

  /** binary.BigEndian.PutUint16. */
  function U16(v: nat): (s: seq<Octet>)
    requires v < 0x1_0000
    ensures |s| == 2
  {
    [v / 0x100, v % 0x100]
  }

  function U32(v: nat): (s: seq<Octet>)
    requires v < 0x1_0000_0000
    ensures |s| == 4
  {
    [v / 0x100_0000, v / 0x1_0000 % 0x100, v / 0x100 % 0x100, v % 0x100]
  }

  function FromU16(s: seq<Octet>): nat
    requires |s| == 2
  {
    (s[0] as int) * 0x100 + s[1] as int
  }

  function FromU32(s: seq<Octet>): nat
    requires |s| == 4
  {
    (s[0] as int) * 0x100_0000 + (s[1] as int) * 0x1_0000 + (s[2] as int) * 0x100 + s[3] as int
  }

  lemma U32RoundTrip(v: nat)
    requires v < 0x1_0000_0000
    ensures FromU32(U32(v)) == v
  {
    assert v / 0x100 / 0x100 == v / 0x1_0000;
    assert v / 0x1_0000 / 0x100 == v / 0x100_0000;
  }

  /** big.Int.SetBytes. */
  function SetBytes(s: seq<Octet>): nat {
    if s == [] then 0 else SetBytes(s[..|s| - 1]) * 256 + s[|s| - 1]
  }

  /** big.Int.Bytes: big-endian, no leading zero octet. */
  function Bytes(n: nat): seq<Octet> {
    if n == 0 then [] else Bytes(n / 256) + [n % 256]
  }

  lemma {:induction false} BytesRoundTrip(n: nat)
    ensures SetBytes(Bytes(n)) == n
  {
    if n > 0 {
      BytesRoundTrip(n / 256);
      var s := Bytes(n);
      assert s[..|s| - 1] == Bytes(n / 256);
    }
  }

  function Pow256(k: nat): nat {
    if k == 0 then 1 else 256 * Pow256(k - 1)
  }

  lemma Pow256Step(k: nat)
    ensures Pow256(k + 4) == 0x1_0000_0000 * Pow256(k)
  {
    assert Pow256(k + 4) == 256 * Pow256(k + 3);
    assert Pow256(k + 2) == 256 * Pow256(k + 1);
  }

  lemma {:induction false} BytesLength(n: nat, k: nat)
    requires n < Pow256(k)
    ensures |Bytes(n)| <= k
  {
    if n > 0 {
      BytesLength(n / 256, k - 1);
    }
  }

  function Zeros(n: nat): (s: seq<Octet>)
    ensures |s| == n && forall i | 0 <= i < n :: s[i] == 0
  {
    seq(n, i => 0)
  }

  lemma {:induction false} SetBytesPadded(n: nat, s: seq<Octet>)
    ensures SetBytes(Zeros(n) + s) == SetBytes(s)
    decreases n + |s|
  {
    var all := Zeros(n) + s;
    if s != [] {
      assert all[..|all| - 1] == Zeros(n) + s[..|s| - 1];
      SetBytesPadded(n, s[..|s| - 1]);
    } else if n > 0 {
      assert all[..|all| - 1] == Zeros(n - 1) + s;
      SetBytesPadded(n - 1, s);
    }
  }
}
