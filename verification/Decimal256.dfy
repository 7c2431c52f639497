/**
 Signed 256-bit fixed-point arithmetic (protomath/decimal256.go).

 A value is its 256-bit two's-complement word, here a number below 2^256.  The unsigned
 256-bit primitives underneath (add, negate, compare, full-width multiply-divide) are taken
 at their mathematical meaning.
 */
module Decimal256 {

  const TWO_255: int := 0x8000_0000_0000_0000_0000_0000_0000_0000_0000_0000_0000_0000_0000_0000_0000_0000
  const TWO_256: int := 0x1_0000_0000_0000_0000_0000_0000_0000_0000_0000_0000_0000_0000_0000_0000_0000_0000

  type Raw = x: nat | x < TWO_256

  /** The signed coefficient a word stands for. */
  function Signed(x: Raw): (r: int)
    ensures -TWO_255 <= r < TWO_255
    ensures r < 0 <==> Negative(x)
  {
    if x < TWO_255 then x else x - TWO_256
  }

  predicate InRange(v: int) {
    -TWO_255 <= v < TWO_255
  }

  /** The sign bit. */
  predicate Negative(x: Raw) {
    x >= TWO_255
  }

  // ----- the unsigned primitives -----

  function Negated(x: Raw): Raw {
    if x == 0 then 0 else TWO_256 - x
  }

  function Wrapped(v: int): Raw {
    v % TWO_256
  }

  function Quotient(n: nat, d: nat): (q: nat)
    requires d > 0
    ensures n == 0 ==> q == 0
  {
    n / d
  }

  /** x * y / d over the full product, and whether the quotient exceeds a word. */
  function MulDivOverflow(x: Raw, y: Raw, d: Raw): (Raw, bool)
    requires d > 0
  {
    var q := Quotient(x * y, d);
    (q % TWO_256, q >= TWO_256)
  }

  // ----- sign and magnitude -----

  function SignedBy(neg: bool, mag: int): int {
    if neg then -mag else mag
  }

  function Magnitude(x: Raw): (m: Raw)
    ensures m <= TWO_255 && Signed(x) == SignedBy(Negative(x), m)
  {
    if Negative(x) then Negated(x) else x
  }

  /** The word of a signed magnitude, if it has one. */
  function FromSignMag(neg: bool, mag: Raw): (r: (Raw, bool))
    ensures r.1 <==> InRange(SignedBy(neg, mag))
    ensures r.1 ==> Signed(r.0) == SignedBy(neg, mag)
    ensures !r.1 ==> r.0 == 0
  {
    if mag == 0 then (0, true)
    else if neg then
      if mag > TWO_255 then (0, false) else (Negated(mag), true)
    else
      if mag > TWO_255 - 1 then (0, false) else (mag, true)
  }

  // ----- arithmetic -----

  function Neg(x: Raw): (Raw, bool) {
    if x == TWO_255 then (0, false) else (Negated(x), true)
  }

  function Add(x: Raw, y: Raw): (Raw, bool) {
    var out := Wrapped(x + y);
    (out, !(Negative(x) == Negative(y) && Negative(x) != Negative(out)))
  }

  function Sub(x: Raw, y: Raw): (Raw, bool) {
    var out := Wrapped(x - y);
    (out, !(Negative(x) != Negative(y) && Negative(x) != Negative(out)))
  }

  function Mul(x: Raw, y: Raw, multiplier: Raw): (Raw, bool)
    requires multiplier > 0
  {
    var (mag, overflow) := MulDivOverflow(Magnitude(x), Magnitude(y), multiplier);
    if overflow then (0, false) else FromSignMag(Negative(x) != Negative(y), mag)
  }

  function Div(x: Raw, y: Raw, multiplier: Raw): (Raw, bool) {
    if Magnitude(y) == 0 then (0, false)
    else
      var (mag, overflow) := MulDivOverflow(Magnitude(x), multiplier, Magnitude(y));
      if overflow then (0, false) else FromSignMag(Negative(x) != Negative(y), mag)
  }

  function Mod(x: Raw, y: Raw): (Raw, bool) {
    if Magnitude(y) == 0 then (0, false) else FromSignMag(Negative(x), Magnitude(x) % Magnitude(y))
  }

  function Cmp(x: Raw, y: Raw): int {
    if Negative(x) != Negative(y) then
      if Negative(x) then -1 else 1
    else if x < y then -1
    else if x == y then 0
    else 1
  }

  // ----- what they promise -----

  function Abs(v: int): nat {
    if v < 0 then -v else v
  }

  /** Division truncated toward zero. */
  function Truncated(a: int, b: int): int
    requires b != 0
  {
    var q: int := Quotient(Abs(a), Abs(b));
    if (a < 0) != (b < 0) then -q else q
  }

  /** The truncated quotient leaves a remainder smaller than the divisor, with the dividend's sign. */
  lemma TruncatedDivides(a: int, b: int)
    requires b != 0
    ensures var rest := a - Truncated(a, b) * b;
            Abs(rest) < Abs(b) && (rest == 0 || (rest < 0 <==> a < 0))
  {
    ModFacts(Abs(a), Abs(b));
    SignedProduct(a, b);
  }

  lemma NegExact(x: Raw)
    ensures Neg(x).1 <==> InRange(-Signed(x))
    ensures Neg(x).1 ==> Signed(Neg(x).0) == -Signed(x)
  {
  }

  /** Addition wraps, and reports success exactly when it did not have to. */
  lemma AddExact(x: Raw, y: Raw)
    ensures Add(x, y).0 == Wrapped(Signed(x) + Signed(y))
    ensures Add(x, y).1 <==> InRange(Signed(x) + Signed(y))
    ensures Add(x, y).1 ==> Signed(Add(x, y).0) == Signed(x) + Signed(y)
  {
    WrappedIs(x + y);
    WrappedIs(Signed(x) + Signed(y));
  }

  lemma SubExact(x: Raw, y: Raw)
    ensures Sub(x, y).0 == Wrapped(Signed(x) - Signed(y))
    ensures Sub(x, y).1 <==> InRange(Signed(x) - Signed(y))
    ensures Sub(x, y).1 ==> Signed(Sub(x, y).0) == Signed(x) - Signed(y)
  {
    WrappedIs(x - y);
    WrappedIs(Signed(x) - Signed(y));
  }

  lemma WrappedIs(v: int)
    requires -TWO_256 <= v < 2 * TWO_256
    ensures Wrapped(v) == if v < 0 then v + TWO_256 else if v < TWO_256 then v else v - TWO_256
  {
  }

  /** Multiplication and division give the truncated result, and succeed exactly when it fits. */
  lemma MulExact(x: Raw, y: Raw, multiplier: Raw)
    requires multiplier > 0
    ensures var exact := Truncated(Signed(x) * Signed(y), multiplier);
            var (r, ok) := Mul(x, y, multiplier);
            (ok <==> InRange(exact)) && (if ok then Signed(r) == exact else r == 0)
    ensures var (r, ok) := Mul(x, y, multiplier);
            ok ==> var rest := Signed(x) * Signed(y) - Signed(r) * multiplier;
                   Abs(rest) < multiplier && (rest == 0 || (rest < 0 <==> Signed(x) * Signed(y) < 0))
  {
    TruncatedDivides(Signed(x) * Signed(y), multiplier);
    AbsTimes(Signed(x), Signed(y));
    ScaledExact(Magnitude(x), Magnitude(y), multiplier, Negative(x) != Negative(y), Signed(x) * Signed(y), multiplier);
  }

  lemma DivExact(x: Raw, y: Raw, multiplier: Raw)
    requires multiplier > 0
    ensures Signed(y) == 0 ==> Div(x, y, multiplier) == (0, false)
    ensures Signed(y) != 0 ==>
              var exact := Truncated(Signed(x) * multiplier, Signed(y));
              var (r, ok) := Div(x, y, multiplier);
              (ok <==> InRange(exact)) && (if ok then Signed(r) == exact else r == 0)
    ensures var (r, ok) := Div(x, y, multiplier);
            ok ==> var rest := Signed(x) * multiplier - Signed(r) * Signed(y);
                   Abs(rest) < Abs(Signed(y)) && (rest == 0 || (rest < 0 <==> Signed(x) * multiplier < 0))
  {
    if Signed(y) != 0 {
      TruncatedDivides(Signed(x) * multiplier, Signed(y));
      AbsTimes(Signed(x), multiplier);
      ScaledExact(Magnitude(x), multiplier, Magnitude(y), Negative(x) != Negative(y), Signed(x) * multiplier,
          Signed(y));
    }
  }

  lemma AbsTimes(a: int, b: int)
    ensures Abs(a * b) == Abs(a) * Abs(b)
    ensures a * b < 0 <==> (a < 0 && b > 0) || (a > 0 && b < 0)
    ensures a * b == 0 <==> a == 0 || b == 0
  {
  }

  /** Both scaled operations at once: magnitudes x and y over d stand for num over den. */
  lemma ScaledExact(x: Raw, y: Raw, d: Raw, neg: bool, num: int, den: int)
    requires d > 0 && den != 0 && Abs(num) == x * y && Abs(den) == d
    requires num != 0 ==> (neg <==> (num < 0) != (den < 0))
    ensures var exact := Truncated(num, den);
            var (mag, overflow) := MulDivOverflow(x, y, d);
            var (r, ok) := if overflow then (0, false) else FromSignMag(neg, mag);
            (ok <==> InRange(exact)) && (if ok then Signed(r) == exact else r == 0)
  {
    hide FromSignMag, Quotient, InRange;
    var q := Quotient(Abs(num), Abs(den));
    QuotientFits(neg, q);
    assert Truncated(num, den) == SignedBy(neg, q);
    assert MulDivOverflow(x, y, d) == (q % TWO_256, q >= TWO_256);
    assert q < TWO_256 ==> q % TWO_256 == q;
  }

  /** A quotient too wide for a word is out of range on either side; one that is not is settled by its sign and size. */
  lemma QuotientFits(neg: bool, q: nat)
    ensures q >= TWO_256 ==> !InRange(SignedBy(neg, q))
    ensures q < TWO_256 ==>
              var (r, ok) := FromSignMag(neg, q);
              (ok <==> InRange(SignedBy(neg, q))) && (if ok then Signed(r) == SignedBy(neg, q) else r == 0)
  {
  }

  /** The remainder completes the truncated quotient, is smaller than the divisor, and has the dividend's sign. */
  lemma ModExact(x: Raw, y: Raw)
    ensures Mod(x, y).1 <==> Signed(y) != 0
    ensures Signed(y) != 0 ==>
              var m := Signed(Mod(x, y).0);
              && Signed(x) == Truncated(Signed(x), Signed(y)) * Signed(y) + m
              && Abs(m) < Abs(Signed(y))
              && (m == 0 || (m < 0 <==> Signed(x) < 0))
  {
    if Signed(y) != 0 {
      var a, b := Magnitude(x), Magnitude(y);
      ModFacts(a, b);
      SignedProduct(Signed(x), Signed(y));
    }
  }

  lemma ModFacts(a: nat, b: nat)
    requires b > 0
    ensures a == (a / b) * b + a % b && a % b < b && a % b <= a
  {
  }

  lemma SignedProduct(v: int, w: int)
    requires w != 0
    ensures Truncated(v, w) * w == if v < 0 then -(Quotient(Abs(v), Abs(w)) * Abs(w))
            else Quotient(Abs(v), Abs(w)) * Abs(w)
  {
  }

  /** Cmp is the signed order. */
  lemma CmpOrders(x: Raw, y: Raw)
    ensures Cmp(x, y) < 0 <==> Signed(x) < Signed(y)
    ensures Cmp(x, y) == 0 <==> Signed(x) == Signed(y)
    ensures Cmp(x, y) == 0 <==> x == y
    ensures Cmp(x, y) > 0 <==> Signed(x) > Signed(y)
  {
  }

  // ----- columns -----

  /**
   The column loops (AddInto, SubInto, MulInto, DivInto, ModInto) share one shape: every row is
   computed, and the flag says whether all rows succeeded.
   */
  method RowsInto(c: seq<Raw>, other: seq<Raw>, op: (Raw, Raw) -> (Raw, bool), out: array<Raw>) returns (ok: bool)
    requires |c| == |other| && out.Length >= |c|
    modifies out
    ensures forall i :: 0 <= i < |c| ==> out[i] == op(c[i], other[i]).0
    ensures forall i :: |c| <= i < out.Length ==> out[i] == old(out[i])
    ensures ok <==> forall i :: 0 <= i < |c| ==> op(c[i], other[i]).1
  {
    ok := true;
    var i := 0;
    while i < |c|
      invariant i <= |c|
      invariant forall j :: 0 <= j < i ==> out[j] == op(c[j], other[j]).0
      invariant forall j :: i <= j < out.Length ==> out[j] == old(out[j])
      invariant ok <==> forall j :: 0 <= j < i ==> op(c[j], other[j]).1
    {
      var (r, rowOk) := op(c[i], other[i]);
      out[i] := r;
      ok := ok && rowOk;
      i := i + 1;
    }
  }
}
