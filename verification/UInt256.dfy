/**
 Unsigned 256-bit division by a 64-bit divisor (protomath/uint256.go), limb by limb.
 */
module UInt256 {
  import opened Modular

  const BASE: nat := 0x1_0000_0000_0000_0000
  const BASE_4: nat := 0x1_0000_0000_0000_0000_0000_0000_0000_0000_0000_0000_0000_0000_0000_0000_0000_0000

  type Limb = x: nat | x < BASE

  /** Four limbs, least significant first. */
  datatype UInt256 = UInt256(l0: Limb, l1: Limb, l2: Limb, l3: Limb)

  function Value(v: UInt256): nat {
    ((v.l3 * BASE + v.l2) * BASE + v.l1) * BASE + v.l0
  }

  function Limbs(n: nat): UInt256
    requires n < BASE_4
  {
    UInt256(n % BASE, n / BASE % BASE, n / BASE / BASE % BASE, n / BASE / BASE / BASE)
  }

  lemma LimbsOfValue(v: UInt256)
    ensures Value(v) < BASE_4 && Limbs(Value(v)) == v
  {
    var n2 := v.l3 * BASE + v.l2;
    var n1 := n2 * BASE + v.l1;
    DropLimb(v.l3, v.l2);
    DropLimb(n2, v.l1);
    DropLimb(n1, v.l0);
    DropLimb(0, v.l3);
  }

  lemma DropLimb(high: nat, low: Limb)
    ensures (high * BASE + low) / BASE == high && (high * BASE + low) % BASE == low
  {
  }

  lemma ValueOfLimbs(n: nat)
    requires n < BASE_4
    ensures Value(Limbs(n)) == n
  {
  }

  /** Quotient and remainder of unbounded numbers. */
  function DivMod(n: nat, d: nat): (r: (nat, nat))
    requires d > 0
    ensures r.0 * d + r.1 == n && r.1 < d
  {
    QuotientBelow(n, n + 1, d);
    (n / d, n % d)
  }

  lemma QuotientBelow(n: nat, q: nat, d: nat)
    requires d > 0
    ensures 0 <= n / d && (n / d) * d + n % d == n
    ensures n < q * d ==> n / d < q
  {
    var k := n / d;
    if k >= q {
      Scale(q, k, d);
    }
  }

  /** The 128-by-64-bit division step; the hardware faults unless hi is below the divisor. */
  function Div64(hi: Limb, lo: Limb, divisor: Limb): (r: (Limb, Limb))
    requires hi < divisor
    ensures r.0 * divisor + r.1 == hi * BASE + lo && r.1 < divisor
  {
    DivFits(hi, lo, divisor);
    DivMod(hi * BASE + lo, divisor)
  }

  lemma DivFits(hi: Limb, lo: Limb, d: Limb)
    requires hi < d
    ensures DivMod(hi * BASE + lo, d).0 < BASE
  {
    var n := hi * BASE + lo;
    assert n < (hi + 1) * BASE <= d * BASE;
    QuotientBelow(n, BASE, d);
  }

  lemma Scale(a: nat, b: nat, d: nat)
    requires a <= b
    ensures a * d <= b * d
  {
  }

  /** Four chained steps, most significant limb first, each passing its remainder on. */
  function DivUint64(v: UInt256, divisor: Limb): (UInt256, Limb)
    requires divisor > 0
  {
    var (q3, r3) := Div64(0, v.l3, divisor);
    var (q2, r2) := Div64(r3, v.l2, divisor);
    var (q1, r1) := Div64(r2, v.l1, divisor);
    var (q0, r0) := Div64(r1, v.l0, divisor);
    (UInt256(q0, q1, q2, q3), r0)
  }

  /** The chain is division with remainder of the whole number. */
  lemma DivUint64Divides(v: UInt256, divisor: Limb)
    requires divisor > 0
    ensures var (q, r) := DivUint64(v, divisor); Value(v) == Value(q) * divisor + r && r < divisor
  {
    var (q3, r3) := Div64(0, v.l3, divisor);
    var (q2, r2) := Div64(r3, v.l2, divisor);
    var (q1, r1) := Div64(r2, v.l1, divisor);
    var (q0, r0) := Div64(r1, v.l0, divisor);
    hide Div64;
    var q32, q321 := q3 * BASE + q2, (q3 * BASE + q2) * BASE + q1;
    Chain(v.l3, q3, r3, v.l2, q2, r2, divisor);
    Chain(v.l3 * BASE + v.l2, q32, r2, v.l1, q1, r1, divisor);
    Chain((v.l3 * BASE + v.l2) * BASE + v.l1, q321, r1, v.l0, q0, r0, divisor);
  }

  /** One more limb of long division. */
  lemma Chain(n: nat, q: nat, r: nat, limb: nat, q': nat, r': nat, d: nat)
    requires n == q * d + r && q' * d + r' == r * BASE + limb
    ensures n * BASE + limb == (q * BASE + q') * d + r'
  {
    Distribute(q, d, q');
  }

  lemma Distribute(q: nat, d: nat, q': nat)
    ensures (q * BASE + q') * d == (q * d) * BASE + q' * d
  {
  }

  /** Division by a prepared divisor, with the 256-bit primitive taken at its meaning. */
  function DivBy(v: UInt256, divisor: Limb): (UInt256, Limb)
    requires divisor > 0
  {
    LimbsOfValue(v);
    QuotientIsSmaller(Value(v), divisor);
    (Limbs(Value(v) / divisor), Value(v) % divisor)
  }

  lemma QuotientIsSmaller(n: nat, d: nat)
    requires d > 0
    ensures 0 <= n / d <= n
  {
    Scale(1, d, n + 1);
    QuotientBelow(n, n + 1, d);
  }

  /** So is this one, its quotient being cut into limbs without loss. */
  lemma DivByDivides(v: UInt256, divisor: Limb)
    requires divisor > 0
    ensures var (q, r) := DivBy(v, divisor); Value(v) == Value(q) * divisor + r && r < divisor
  {
    LimbsOfValue(v);
    QuotientIsSmaller(Value(v), divisor);
    QuotientBelow(Value(v), 1, divisor);
    ValueOfLimbs(Value(v) / divisor);
    hide Value, Limbs;
  }

  /** Both ways of dividing agree, quotient and remainder. */
  lemma DivisionsAgree(v: UInt256, divisor: Limb)
    requires divisor > 0
    ensures DivUint64(v, divisor) == DivBy(v, divisor)
  {
    var (q, r) := DivUint64(v, divisor);
    DivUint64Divides(v, divisor);
    hide DivUint64;
    DivModUnique(Value(v), Value(q), r, divisor);
    LimbsOfValue(q);
    hide Value, Limbs;
  }

  // ----- columns -----

  method DivUint64Into(c: seq<UInt256>, divisor: Limb, quotient: array<UInt256>, remainder: array<Limb>)
    requires divisor > 0 && quotient.Length >= |c| && remainder.Length >= |c|
    requires quotient as object != remainder
    modifies quotient, remainder
    ensures forall i :: 0 <= i < |c| ==> (quotient[i], remainder[i]) == DivUint64(c[i], divisor)
    ensures quotient[|c|..] == old(quotient[|c|..]) && remainder[|c|..] == old(remainder[|c|..])
  {
    hide DivUint64;
    var i := 0;
    while i < |c|
      invariant i <= |c|
      invariant forall j :: 0 <= j < i ==> (quotient[j], remainder[j]) == DivUint64(c[j], divisor)
      invariant quotient[|c|..] == old(quotient[|c|..]) && remainder[|c|..] == old(remainder[|c|..])
    {
      var (q, r) := DivUint64(c[i], divisor);
      quotient[i], remainder[i] := q, r;
      i := i + 1;
    }
  }

  /** The other column loop leaves the same rows. */
  method DivByInto(c: seq<UInt256>, divisor: Limb, quotient: array<UInt256>, remainder: array<Limb>)
    requires divisor > 0 && quotient.Length >= |c| && remainder.Length >= |c|
    requires quotient as object != remainder
    modifies quotient, remainder
    ensures forall i :: 0 <= i < |c| ==> (quotient[i], remainder[i]) == DivUint64(c[i], divisor)
    ensures quotient[|c|..] == old(quotient[|c|..]) && remainder[|c|..] == old(remainder[|c|..])
  {
    hide DivUint64, DivBy;
    var i := 0;
    while i < |c|
      invariant i <= |c|
      invariant forall j :: 0 <= j < i ==> (quotient[j], remainder[j]) == DivUint64(c[j], divisor)
      invariant quotient[|c|..] == old(quotient[|c|..]) && remainder[|c|..] == old(remainder[|c|..])
    {
      var (q, r) := DivBy(c[i], divisor);
      DivisionsAgree(c[i], divisor);
      quotient[i], remainder[i] := q, r;
      i := i + 1;
    }
  }
}
