/**
 Solidity types, their values and the head/tail encoding of the Solidity Contract ABI
 Specification, section "Formal Specification of the Encoding", for scalars, byte strings and
 arrays nested to any depth.
 */
module AbiTypes {
  import opened AbiWords

  /** One-word types; every uintN and intN is carried as its 256-bit word. */
  datatype Scalar = Word256 | Address | Bool | Bytes32 | BytesN(size: nat)

  /** Blob stands for bytes and string. */
  datatype Ty = Single(scalar: Scalar) | Blob | FixedOf(elem: Ty, count: nat) | ArrayOf(elem: Ty)

  datatype Value = Number(n: nat) | Raw(bytes: seq<Byte>) | Flag(b: bool) | Many(items: seq<Value>)

  /** Types Solidity has: bytesN below 32 bytes (bytes32 has its own case), no empty fixed array. */
  predicate Proper(t: Ty) {
    match t
    case Single(s) => s.BytesN? ==> 0 < s.size < 32
    case Blob => true
    case FixedOf(e, n) => n > 0 && Proper(e)
    case ArrayOf(e) => Proper(e)
  }

  predicate FitsScalar(s: Scalar, v: Value) {
    match s
    case Word256 => v.Number? && v.n < Pow256(32)
    case Address => v.Raw? && |v.bytes| == 20
    case Bool => v.Flag?
    case Bytes32 => v.Raw? && |v.bytes| == 32
    case BytesN(n) => 0 < n < 32 && v.Raw? && |v.bytes| == n
  }

  predicate Fits(t: Ty, v: Value)
    decreases t
  {
    match t
    case Single(s) => FitsScalar(s, v)
    case Blob => v.Raw?
    case FixedOf(e, n) => n > 0 && v.Many? && |v.items| == n && forall i :: 0 <= i < n ==> Fits(e, v.items[i])
    case ArrayOf(e) => v.Many? && forall i :: 0 <= i < |v.items| ==> Fits(e, v.items[i])
  }

  predicate AllFit(ts: seq<Ty>, vs: seq<Value>) {
    |ts| == |vs| && forall i :: 0 <= i < |ts| ==> Fits(ts[i], vs[i])
  }

  predicate IsDynamic(t: Ty) {
    t.Blob? || t.ArrayOf? || (t.FixedOf? && IsDynamic(t.elem))
  }

  /** Words a type takes in the head. */
  function HeadWords(t: Ty): nat {
    if IsDynamic(t) then 1
    else if t.FixedOf? then t.count * HeadWords(t.elem)
    else 1
  }

  function TotalHeadWords(ts: seq<Ty>): nat {
    if ts == [] then 0 else HeadWords(ts[0]) + TotalHeadWords(ts[1..])
  }

  // ----- the encoding -----

  function EncodeScalar(s: Scalar, v: Value): (word: seq<Byte>)
    requires FitsScalar(s, v)
    ensures |word| == 32
  {
    match s
    case Word256 => ToBytes(v.n, 32)
    case Address => Zeros(12) + v.bytes
    case Bool => ToBytes(if v.b then 1 else 0, 32)
    case Bytes32 => v.bytes
    case BytesN(n) => v.bytes + Zeros(32 - n)
  }

  /** Zero bytes up to the next word boundary. */
  function Padding(n: nat): (p: nat)
    ensures p < 32 && (n + p) % 32 == 0
  {
    (32 - n % 32) % 32
  }

  function Repeated(t: Ty, n: nat): (ts: seq<Ty>)
    ensures |ts| == n && forall i :: 0 <= i < n ==> ts[i] == t
  {
    seq(n, _ => t)
  }

  /** The body of a value: where a static one stands, and where the offset of a dynamic one leads. */
  function Body(t: Ty, v: Value): seq<Byte>
    requires Fits(t, v)
    decreases v, 1
  {
    match t
    case Single(s) => EncodeScalar(s, v)
    case Blob => ToBytes(|v.bytes|, 32) + v.bytes + Zeros(Padding(|v.bytes|))
    case FixedOf(e, n) => Tuple(Repeated(e, n), v.items)
    case ArrayOf(e) => ToBytes(|v.items|, 32) + Tuple(Repeated(e, |v.items|), v.items)
  }

  /** Heads and tails of a list, the first tail going to byte `offset` counted from the list's start. */
  function HeadsAndTails(ts: seq<Ty>, vs: seq<Value>, offset: nat): (seq<Byte>, seq<Byte>)
    requires AllFit(ts, vs)
    decreases vs, 0
  {
    if ts == [] then ([], [])
    else
      var body := Body(ts[0], vs[0]);
      if IsDynamic(ts[0]) then
        var (heads, tails) := HeadsAndTails(ts[1..], vs[1..], offset + |body|);
        (ToBytes(offset, 32) + heads, body + tails)
      else
        var (heads, tails) := HeadsAndTails(ts[1..], vs[1..], offset);
        (body + heads, tails)
  }

  function Tuple(ts: seq<Ty>, vs: seq<Value>): seq<Byte>
    requires AllFit(ts, vs)
    decreases vs, 1
  {
    var (heads, tails) := HeadsAndTails(ts, vs, 32 * TotalHeadWords(ts));
    heads + tails
  }
}
