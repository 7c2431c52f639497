/**
 The decode plan of generated event unpackers (internal/codegen/codegen.go over
 abiunpack/abiunpack.go) against the standard encoding: which types are decoded, from which
 head word, and with what result.
 */
module AbiCodec {
  import opened Options
  import opened AbiWords
  import opened AbiTypes

  // ----- what the generator emits for a type -----

  /** A decoder; a comment, which leaves the field at its zero value; or code that does not compile. */
  datatype Rendering = Decodes | Comment | IllTyped

  /** The type's text begins with uint or int, which the generator's tests by prefix take for a number. */
  predicate RootedInNumber(t: Ty) {
    match t
    case Single(s) => s == Word256
    case Blob => false
    case FixedOf(e, _) => RootedInNumber(e)
    case ArrayOf(e) => RootedInNumber(e)
  }

  function Rendered(t: Ty): Rendering {
    match t
    case Single(_) => Decodes
    case Blob => Decodes
    case FixedOf(e, _) => if e.Single? then Decodes else if RootedInNumber(e) then IllTyped else Comment
    case ArrayOf(e) =>
      if e.Single? then (if e.scalar.BytesN? then Comment else Decodes)
      else if RootedInNumber(e) then IllTyped else Comment
  }

  // ----- reading -----

  function DecodeScalar(s: Scalar, word: seq<Byte>): Option<Value>
    requires |word| == 32
  {
    match s
    case Word256 => Some(Number(Num(word)))
    case Address => Some(Raw(word[12..32]))
    case Bool => if Num(word) > 1 then None else Some(Flag(Num(word) == 1))
    case Bytes32 => Some(Raw(word))
    case BytesN(n) => Some(Raw(word[..if n <= 32 then n else 32]))
  }

  /** n scalars read word by word from byte `start` on. */
  function DecodeItems(s: Scalar, data: seq<Byte>, start: nat, n: nat): (r: Option<seq<Value>>)
    ensures r.Some? ==> |r.value| == n
    decreases n
  {
    if n == 0 then Some([])
    else if start + 32 > |data| then None
    else
      match DecodeScalar(s, data[start..start + 32])
      case None => None
      case Some(v) =>
        match DecodeItems(s, data, start + 32, n - 1)
        case None => None
        case Some(rest) => Some([v] + rest)
  }

  /** Word i of a list that starts at byte `start`. */
  function ItemAt(s: Scalar, data: seq<Byte>, start: nat, i: nat): Option<Value> {
    if start + 32 * i + 32 > |data| then None else DecodeScalar(s, data[start + 32 * i..start + 32 * i + 32])
  }

  /** All or nothing: a list is read exactly when its words are there and every one is of the type. */
  lemma {:induction false} ItemsIff(s: Scalar, data: seq<Byte>, start: nat, n: nat)
    ensures var r := DecodeItems(s, data, start, n);
            && (r.Some? <==> forall i: nat :: i < n ==> ItemAt(s, data, start, i).Some?)
            && (r.Some? ==> forall i: nat :: i < n ==> ItemAt(s, data, start, i) == Some(r.value[i]))
    decreases n
  {
    hide DecodeScalar, ItemAt;
    if n > 0 {
      ItemShift(s, data, start, 0);
      ItemsIff(s, data, start + 32, n - 1);
      if DecodeItems(s, data, start, n).Some? {
        forall i: nat | i < n ensures ItemAt(s, data, start, i) == Some(DecodeItems(s, data, start, n).value[i]) {
          if i > 0 {
            ItemShift(s, data, start, i - 1);
          }
        }
      }
      if forall i: nat :: i < n ==> ItemAt(s, data, start, i).Some? {
        var next := start + 32;
        forall i: nat | i < n - 1 ensures ItemAt(s, data, next, i).Some? {
          ItemShift(s, data, start, i);
          assert ItemAt(s, data, start, i + 1).Some?;
        }
        assert ItemAt(s, data, start, 0).Some?;
      }
    }
  }

  lemma ItemShift(s: Scalar, data: seq<Byte>, start: nat, i: nat)
    ensures ItemAt(s, data, start + 32, i) == ItemAt(s, data, start, i + 1)
    ensures ItemAt(s, data, start, 0) ==
            if start + 32 > |data| then None else DecodeScalar(s, data[start..start + 32])
  {
    assert start + 32 + 32 * i == start + 32 * (i + 1);
  }

  function DecodeWord(s: Scalar, data: seq<Byte>, w: nat): Option<Value> {
    match Word(data, w)
    case None => None
    case Some(word) => DecodeScalar(s, word)
  }

  function DecodeBlob(data: seq<Byte>, w: nat): Option<Value> {
    match DynamicWordRange(data, w)
    case None => None
    case Some((start, length)) => Some(Raw(data[start..start + length]))
  }

  function DecodeArray(s: Scalar, data: seq<Byte>, w: nat): Option<Value> {
    match DynamicWordRange(data, w)
    case None => None
    case Some((start, length)) =>
      if length > (|data| - start) / 32 then None
      else
        match DecodeItems(s, data, start, length)
        case None => None
        case Some(items) => Some(Many(items))
  }

  function DecodeFixed(s: Scalar, n: nat, data: seq<Byte>, w: nat): Option<Value> {
    match DecodeItems(s, data, 32 * w, n)
    case None => None
    case Some(items) => Some(Many(items))
  }

  /** What the emitted code does to the field: sets it, leaves it alone, or rejects the log;
      or else it does not compile. */
  datatype Field = Set(value: Value) | Left | Rejected | Uncompiled

  function Outcome(r: Option<Value>): Field {
    if r.Some? then Set(r.value) else Rejected
  }

  function Read(t: Ty, data: seq<Byte>, w: nat): Field {
    if Rendered(t) == Comment then Left
    else if Rendered(t) == IllTyped then Uncompiled
    else
      match t
      case Single(s) => Outcome(DecodeWord(s, data, w))
      case Blob => Outcome(DecodeBlob(data, w))
      case FixedOf(e, n) => Outcome(DecodeFixed(e.scalar, n, data, w))
      case ArrayOf(e) => Outcome(DecodeArray(e.scalar, data, w))
  }

  /** The shared loop of the four array readers; there is none for bytesN. */
  method ReadArray(s: Scalar, data: seq<Byte>, headWord: nat) returns (r: Option<Value>)
    requires !s.BytesN?
    ensures r == DecodeArray(s, data, headWord)
  {
    var range := DynamicWordRange(data, headWord);
    if range.None? {
      return None;
    }
    var bodyStart, length := range.value.0, range.value.1;
    if length > (|data| - bodyStart) / 32 {
      return None;
    }
    ghost var all := DecodeItems(s, data, bodyStart, length);
    var out, i := [], 0;
    ItemsFrom(out, all);
    while i < length
      invariant i <= length && bodyStart == range.value.0 + 32 * i && |out| == i
      invariant bodyStart + 32 * (length - i) <= |data|
      invariant all == Prepended(out, DecodeItems(s, data, bodyStart, length - i))
    {
      var v := DecodeScalar(s, data[bodyStart..bodyStart + 32]);
      if v.None? {
        return None;
      }
      PrependOne(out, v.value, DecodeItems(s, data, bodyStart + 32, length - i - 1));
      out := out + [v.value];
      bodyStart := bodyStart + 32;
      i := i + 1;
    }
    assert out + [] == out;
    return Some(Many(out));
  }

  function Prepended(out: seq<Value>, rest: Option<seq<Value>>): Option<seq<Value>> {
    if rest.None? then None else Some(out + rest.value)
  }

  lemma ItemsFrom(out: seq<Value>, all: Option<seq<Value>>)
    requires out == []
    ensures Prepended(out, all) == all
  {
    assert all.Some? ==> [] + all.value == all.value;
  }

  lemma PrependOne(out: seq<Value>, v: Value, rest: Option<seq<Value>>)
    ensures Prepended(out, Prepended([v], rest)) == Prepended(out + [v], rest)
  {
    if rest.Some? {
      assert out + ([v] + rest.value) == out + [v] + rest.value;
    }
  }

  // ----- sizes of encodings -----

  lemma {:induction false} TotalRepeated(t: Ty, n: nat)
    ensures TotalHeadWords(Repeated(t, n)) == n * HeadWords(t)
  {
    if n > 0 {
      TotalRepeated(t, n - 1);
      assert Repeated(t, n)[1..] == Repeated(t, n - 1);
      assert n * HeadWords(t) == HeadWords(t) + (n - 1) * HeadWords(t);
    }
  }

  lemma BlobSize(bytes: seq<Byte>)
    ensures |Body(Blob, Raw(bytes))| % 32 == 0
  {
    hide ToBytes, Padding;
    var n, p := |bytes|, Padding(|bytes|);
    assert |Body(Blob, Raw(bytes))| == 32 + (n + p);
  }

  /** Bodies are whole words, static ones as many as they take in the head. */
  lemma {:induction false} BodySize(t: Ty, v: Value)
    requires Fits(t, v)
    ensures |Body(t, v)| % 32 == 0
    ensures !IsDynamic(t) ==> |Body(t, v)| == 32 * HeadWords(t)
    decreases v, 1
  {
    hide EncodeScalar, ToBytes, Tuple, TotalHeadWords;
    match t
    case Single(s) =>
    case Blob => BlobSize(v.bytes);
    case FixedOf(e, n) =>
      TupleSize(Repeated(e, n), v.items);
      TotalRepeated(e, n);
    case ArrayOf(e) => TupleSize(Repeated(e, |v.items|), v.items);
  }

  lemma {:induction false} TupleSize(ts: seq<Ty>, vs: seq<Value>)
    requires AllFit(ts, vs)
    ensures |Tuple(ts, vs)| % 32 == 0
    ensures (forall i :: 0 <= i < |ts| ==> !IsDynamic(ts[i])) ==> |Tuple(ts, vs)| == 32 * TotalHeadWords(ts)
    decreases vs, 1
  {
    hide HeadsAndTails, Fits, TotalHeadWords, IsDynamic;
    ListSize(ts, vs, 32 * TotalHeadWords(ts));
    WholeWords(32 * TotalHeadWords(ts), |HeadsAndTails(ts, vs, 32 * TotalHeadWords(ts)).1|);
  }

  lemma {:induction false} ListSize(ts: seq<Ty>, vs: seq<Value>, offset: nat)
    requires AllFit(ts, vs)
    ensures var (heads, tails) := HeadsAndTails(ts, vs, offset);
            && |heads| == 32 * TotalHeadWords(ts) && |tails| % 32 == 0
            && ((forall i :: 0 <= i < |ts| ==> !IsDynamic(ts[i])) ==> tails == [])
    decreases vs, 0
  {
    hide Body, Fits;
    if ts != [] {
      var body := Body(ts[0], vs[0]);
      BodySize(ts[0], vs[0]);
      if IsDynamic(ts[0]) {
        ListSize(ts[1..], vs[1..], offset + |body|);
        WholeWords(|body|, |HeadsAndTails(ts[1..], vs[1..], offset + |body|).1|);
      } else {
        ListSize(ts[1..], vs[1..], offset);
      }
    }
  }

  lemma WholeWords(a: nat, b: nat)
    requires a % 32 == 0 && b % 32 == 0
    ensures (a + b) % 32 == 0
  {
  }

  // ----- lists of scalars -----

  function EncodeItems(s: Scalar, items: seq<Value>): (bs: seq<Byte>)
    requires forall i :: 0 <= i < |items| ==> FitsScalar(s, items[i])
    ensures |bs| == 32 * |items|
  {
    if items == [] then [] else EncodeScalar(s, items[0]) + EncodeItems(s, items[1..])
  }

  lemma {:induction false} ScalarList(s: Scalar, items: seq<Value>, offset: nat)
    requires AllFit(Repeated(Single(s), |items|), items)
    ensures forall i :: 0 <= i < |items| ==> FitsScalar(s, items[i])
    ensures HeadsAndTails(Repeated(Single(s), |items|), items, offset) == (EncodeItems(s, items), [])
  {
    hide FitsScalar, EncodeScalar;
    forall i | 0 <= i < |items| ensures FitsScalar(s, items[i]) {
      assert Fits(Repeated(Single(s), |items|)[i], items[i]);
    }
    if items != [] {
      assert Repeated(Single(s), |items|)[1..] == Repeated(Single(s), |items| - 1);
      ScalarList(s, items[1..], offset);
    }
  }

  lemma ScalarTuple(s: Scalar, items: seq<Value>)
    requires AllFit(Repeated(Single(s), |items|), items)
    ensures forall i :: 0 <= i < |items| ==> FitsScalar(s, items[i])
    ensures Tuple(Repeated(Single(s), |items|), items) == EncodeItems(s, items)
  {
    ScalarList(s, items, 32 * TotalHeadWords(Repeated(Single(s), |items|)));
    hide HeadsAndTails, FitsScalar, EncodeScalar, Fits;
    assert EncodeItems(s, items) + [] == EncodeItems(s, items);
  }

  // ----- decoding undoes encoding -----

  lemma ScalarRoundTrip(s: Scalar, v: Value)
    requires FitsScalar(s, v)
    ensures DecodeScalar(s, EncodeScalar(s, v)) == Some(v)
  {
    match s
    case Word256 => NumToBytes(v.n, 32);
    case Address => assert (Zeros(12) + v.bytes)[12..32] == v.bytes;
    case Bool => SmallFits(if v.b then 1 else 0);
    case Bytes32 =>
    case BytesN(n) => assert (v.bytes + Zeros(32 - n))[..n] == v.bytes;
  }

  /** The bytes of a word that the scalar does not use are zero. */
  predicate Canonical(s: Scalar, word: seq<Byte>)
    requires |word| == 32
  {
    match s
    case Address => word[..12] == Zeros(12)
    case BytesN(n) => n <= 32 && word[n..] == Zeros(32 - n)
    case _ => true
  }

  /** Whatever the word, a value read from it is one of the type, and stands for that word in
      the standard encoding if and only if the bytes it leaves unused are zero. */
  lemma ReencodesIff(s: Scalar, word: seq<Byte>)
    requires |word| == 32 && (s.BytesN? ==> 0 < s.size < 32)
    requires DecodeScalar(s, word).Some?
    ensures var v := DecodeScalar(s, word).value;
            FitsScalar(s, v) && (EncodeScalar(s, v) == word <==> Canonical(s, word))
  {
    hide ToBytes, Num, Pow256, Zeros;
    match s
    case Address => FrontIsZero(word, 12);
    case BytesN(n) => BackIsZero(word, n);
    case Word256 => ToBytesNum(word);
    case Bool => ToBytesNum(word);
    case Bytes32 =>
  }

  lemma FrontIsZero(word: seq<Byte>, n: nat)
    requires n <= |word|
    ensures Zeros(n) + word[n..|word|] == word <==> word[..n] == Zeros(n)
  {
    assert word == word[..n] + word[n..|word|];
    assert (Zeros(n) + word[n..|word|])[..n] == Zeros(n);
  }

  lemma BackIsZero(word: seq<Byte>, n: nat)
    requires n <= |word|
    ensures word[..n] + Zeros(|word| - n) == word <==> word[n..] == Zeros(|word| - n)
  {
    assert word == word[..n] + word[n..];
    assert (word[..n] + Zeros(|word| - n))[n..] == Zeros(|word| - n);
  }

  ghost predicate Lies(data: seq<Byte>, at: nat, part: seq<Byte>) {
    at + |part| <= |data| && data[at..at + |part|] == part
  }

  lemma LiesSplit(data: seq<Byte>, at: nat, a: seq<Byte>, b: seq<Byte>)
    requires Lies(data, at, a + b)
    ensures Lies(data, at, a) && Lies(data, at + |a|, b)
  {
    var whole := data[at..at + |a + b|];
    assert whole[..|a|] == a && whole[|a|..] == b;
    assert data[at..at + |a|] == whole[..|a|];
    assert data[at + |a|..at + |a| + |b|] == whole[|a|..];
  }

  lemma LiesMeans(data: seq<Byte>, at: nat, part: seq<Byte>)
    requires Lies(data, at, part)
    ensures at + |part| <= |data| && data[at..at + |part|] == part
  {
  }

  lemma {:induction false} ItemsRoundTrip(s: Scalar, items: seq<Value>, data: seq<Byte>, at: nat)
    requires forall i :: 0 <= i < |items| ==> FitsScalar(s, items[i])
    requires Lies(data, at, EncodeItems(s, items))
    ensures DecodeItems(s, data, at, |items|) == Some(items)
  {
    if items != [] {
      LiesSplit(data, at, EncodeScalar(s, items[0]), EncodeItems(s, items[1..]));
      ScalarRoundTrip(s, items[0]);
      ItemsRoundTrip(s, items[1..], data, at + 32);
      assert [items[0]] + items[1..] == items;
      hide EncodeScalar, DecodeScalar, FitsScalar;
    }
  }

  /** A decoded static value, lying in the head. */
  lemma StaticRoundTrip(t: Ty, v: Value, data: seq<Byte>, w: nat)
    requires Fits(t, v) && !IsDynamic(t) && Rendered(t) == Decodes && Lies(data, 32 * w, Body(t, v))
    ensures Read(t, data, w) == Set(v)
  {
    hide FitsScalar, EncodeScalar, DecodeScalar;
    match t
    case Single(s) => ScalarRoundTrip(s, v);
    case FixedOf(e, n) =>
      ScalarTuple(e.scalar, v.items);
      ItemsRoundTrip(e.scalar, v.items, data, 32 * w);
  }

  lemma WordLies(data: seq<Byte>, w: nat, n: nat)
    requires n < TWO_64 && Lies(data, 32 * w, ToBytes(n, 32))
    ensures Word(data, w).Some? && Uint64Word(Word(data, w).value) == Some(n)
  {
    hide ToBytes, Num;
    SmallFits(n);
    assert Word(data, w) == Some(ToBytes(n, 32));
  }

  /** Following a head word to a length word. */
  lemma RangeIs(data: seq<Byte>, w: nat, offset: nat, length: nat)
    requires |data| < TWO_64 && offset % 32 == 0 && offset + 32 + length <= |data|
    requires Lies(data, 32 * w, ToBytes(offset, 32)) && Lies(data, offset, ToBytes(length, 32))
    ensures DynamicWordRange(data, w) == Some((offset + 32, length))
  {
    hide ToBytes, Word, Uint64Word, Lies;
    WordLies(data, w, offset);
    assert 32 * (offset / 32) == offset;
    WordLies(data, offset / 32, length);
  }

  /** A decoded dynamic value, lying where its head word points. */
  lemma DynamicRoundTrip(t: Ty, v: Value, data: seq<Byte>, w: nat, offset: nat)
    requires |data| < TWO_64 && Fits(t, v) && IsDynamic(t) && Rendered(t) == Decodes && offset % 32 == 0
    requires Lies(data, 32 * w, ToBytes(offset, 32)) && Lies(data, offset, Body(t, v))
    ensures Read(t, data, w) == Set(v)
  {
    hide Lies, ToBytes, DecodeBlob, DecodeArray;
    if t.Blob? {
      BlobRoundTrip(v.bytes, data, w, offset);
    } else {
      ArrayRoundTrip(t.elem.scalar, v.items, data, w, offset);
    }
  }

  lemma BlobRoundTrip(bytes: seq<Byte>, data: seq<Byte>, w: nat, offset: nat)
    requires |data| < TWO_64 && offset % 32 == 0
    requires Lies(data, 32 * w, ToBytes(offset, 32)) && Lies(data, offset, Body(Blob, Raw(bytes)))
    ensures DecodeBlob(data, w) == Some(Raw(bytes))
  {
    hide DynamicWordRange, ToBytes, Lies;
    var length, padding := ToBytes(|bytes|, 32), Zeros(Padding(|bytes|));
    LiesSplit(data, offset, length + bytes, padding);
    LiesSplit(data, offset, length, bytes);
    LiesMeans(data, offset + 32, bytes);
    RangeIs(data, w, offset, |bytes|);
  }

  lemma ArrayRoundTrip(s: Scalar, items: seq<Value>, data: seq<Byte>, w: nat, offset: nat)
    requires |data| < TWO_64 && offset % 32 == 0 && Fits(ArrayOf(Single(s)), Many(items))
    requires Lies(data, 32 * w, ToBytes(offset, 32)) && Lies(data, offset, Body(ArrayOf(Single(s)), Many(items)))
    ensures DecodeArray(s, data, w) == Some(Many(items))
  {
    hide DynamicWordRange, ToBytes, Lies, FitsScalar, DecodeItems, Tuple;
    ScalarTuple(s, items);
    LiesSplit(data, offset, ToBytes(|items|, 32), EncodeItems(s, items));
    LiesMeans(data, offset + 32, EncodeItems(s, items));
    RangeIs(data, w, offset, |items|);
    ItemsRoundTrip(s, items, data, offset + 32);
  }

  /** The head word of argument i by the standard. */
  function HeadIndex(ts: seq<Ty>, i: nat): nat
    requires i <= |ts|
  {
    TotalHeadWords(ts[..i])
  }

  lemma HeadIndexZero(ts: seq<Ty>)
    ensures HeadIndex(ts, 0) == 0
  {
    assert ts[..0] == [];
  }

  lemma HeadIndexNext(ts: seq<Ty>, i: nat)
    requires 0 < i <= |ts|
    ensures HeadIndex(ts, i) == HeadWords(ts[0]) + HeadIndex(ts[1..], i - 1)
  {
    assert ts[..i][1..] == ts[1..][..i - 1];
  }

  /** The type behind all arrays. */
  function Innermost(t: Ty): Ty {
    match t
    case FixedOf(e, _) => Innermost(e)
    case ArrayOf(e) => Innermost(e)
    case _ => t
  }

  /** The types that are decoded: every scalar and byte string, fixed arrays of any scalar, and
      dynamic arrays of any scalar but bytesN. */
  predicate Decoded(t: Ty) {
    || t.Single? || t.Blob?
    || (t.FixedOf? && t.elem.Single?)
    || (t.ArrayOf? && t.elem in {Single(Word256), Single(Address), Single(Bool), Single(Bytes32)})
  }

  /** What becomes of a field that holds v in the log: of the types not decoded, those that are
      arrays of arrays of numbers do not compile, and all others are left alone. */
  function Expected(t: Ty, v: Value): Field {
    if Decoded(t) then Set(v)
    else if Innermost(t) == Single(Word256) then Uncompiled
    else Left
  }

  lemma {:induction false} RootIsInnermost(t: Ty)
    ensures RootedInNumber(t) <==> Innermost(t) == Single(Word256)
  {
    match t
    case Single(_) =>
    case Blob =>
    case FixedOf(e, _) => RootIsInnermost(e);
    case ArrayOf(e) => RootIsInnermost(e);
  }

  lemma ExpectedIs(t: Ty, v: Value)
    ensures match t
            case Single(_) => Expected(t, v) == Set(v)
            case Blob => Expected(t, v) == Set(v)
            case FixedOf(Single(_), _) => Expected(t, v) == Set(v)
            case ArrayOf(Single(BytesN(_))) => Expected(t, v) == Left
            case ArrayOf(Single(_)) => Expected(t, v) == Set(v)
            case _ => Expected(t, v) == if Innermost(t) == Single(Word256) then Uncompiled else Left
  {
    if t.ArrayOf? && t.elem.Single? {
      assert Innermost(t) == Innermost(t.elem) == t.elem;
    }
  }

  /** The generator's branches, by the type alone. */
  lemma RenderedIs(t: Ty)
    ensures Rendered(t) == Decodes <==> Decoded(t)
    ensures Rendered(t) == IllTyped <==> !Decoded(t) && Innermost(t) == Single(Word256)
  {
    RootIsInnermost(t);
  }

  lemma {:induction false} ArgumentRead(ts: seq<Ty>, vs: seq<Value>, data: seq<Byte>, w: nat, offset: nat, i: nat)
    requires AllFit(ts, vs) && i < |ts| && |data| < TWO_64 && offset % 32 == 0
    requires Lies(data, 32 * w, HeadsAndTails(ts, vs, offset).0) && Lies(data, offset, HeadsAndTails(ts, vs, offset).1)
    ensures Read(ts[i], data, w + HeadIndex(ts, i)) == Expected(ts[i], vs[i])
    decreases |ts|
  {
    hide Read, Rendered, Lies, Fits, Body, ToBytes, HeadIndex;
    HeadIndexZero(ts);
    var body := Body(ts[0], vs[0]);
    BodySize(ts[0], vs[0]);
    if IsDynamic(ts[0]) {
      var (heads, tails) := HeadsAndTails(ts[1..], vs[1..], offset + |body|);
      LiesSplit(data, 32 * w, ToBytes(offset, 32), heads);
      LiesSplit(data, offset, body, tails);
      if i == 0 {
        FirstRead(ts[0], vs[0], data, w, offset);
      } else {
        HeadIndexNext(ts, i);
        WholeWords(offset, |body|);
        ArgumentRead(ts[1..], vs[1..], data, w + 1, offset + |body|, i - 1);
      }
    } else {
      var (heads, tails) := HeadsAndTails(ts[1..], vs[1..], offset);
      LiesSplit(data, 32 * w, body, heads);
      if i == 0 {
        FirstRead(ts[0], vs[0], data, w, offset);
      } else {
        HeadIndexNext(ts, i);
        ArgumentRead(ts[1..], vs[1..], data, w + HeadWords(ts[0]), offset, i - 1);
      }
    }
  }

  lemma FirstRead(t: Ty, v: Value, data: seq<Byte>, w: nat, offset: nat)
    requires Fits(t, v) && |data| < TWO_64 && offset % 32 == 0
    requires if IsDynamic(t) then Lies(data, 32 * w, ToBytes(offset, 32)) && Lies(data, offset, Body(t, v))
             else Lies(data, 32 * w, Body(t, v))
    ensures Read(t, data, w) == Expected(t, v)
  {
    hide Lies, Fits, Body, ToBytes;
    RenderedIs(t);
    if Decoded(t) {
      if IsDynamic(t) {
        DynamicRoundTrip(t, v, data, w, offset);
      } else {
        StaticRoundTrip(t, v, data, w);
      }
    }
  }

  /**
   Reading any one argument of the standard encoding at its standard head word, whatever the
   arguments around it: the field gets the encoded value for every scalar and byte string, for
   fixed arrays of scalars and for dynamic arrays of them but bytesN[]; other types are left
   alone, except that arrays of arrays of numbers make code that does not compile.
   */
  lemma ReadInvertsEncode(ts: seq<Ty>, vs: seq<Value>, i: nat)
    requires AllFit(ts, vs) && i < |ts| && |Tuple(ts, vs)| < TWO_64
    ensures var field := Read(ts[i], Tuple(ts, vs), HeadIndex(ts, i));
            match ts[i]
            case Single(_) => field == Set(vs[i])
            case Blob => field == Set(vs[i])
            case FixedOf(Single(_), _) => field == Set(vs[i])
            case ArrayOf(Single(BytesN(_))) => field == Left
            case ArrayOf(Single(_)) => field == Set(vs[i])
            case _ => field == if Innermost(ts[i]) == Single(Word256) then Uncompiled else Left
    ensures Read(ts[i], Tuple(ts, vs), HeadIndex(ts, i)) == Expected(ts[i], vs[i])
  {
    hide HeadsAndTails, Read, Fits, HeadIndex, TotalHeadWords, Rendered;
    var offset := 32 * TotalHeadWords(ts);
    var (heads, tails) := HeadsAndTails(ts, vs, offset);
    ListSize(ts, vs, offset);
    var data := heads + tails;
    assert data[0..|heads|] == heads && data[offset..offset + |tails|] == tails;
    ArgumentRead(ts, vs, data, 0, offset, i);
    ExpectedIs(ts[i], vs[i]);
    hide Expected, Innermost;
  }

  /** bytes4[] is not decoded: whatever the log holds, the field keeps its zero value. */
  lemma Bytes4ArrayIsLeft(data: seq<Byte>, w: nat)
    ensures Read(ArrayOf(Single(BytesN(4))), data, w) == Left
  {
  }

  // ----- the generator's head count -----

  /** Head words as the generator counts them: it looks at the outermost array only. */
  function PlanWords(t: Ty): nat {
    if t.FixedOf? then t.count else 1
  }

  function TotalPlanWords(ts: seq<Ty>): nat {
    if ts == [] then 0 else PlanWords(ts[0]) + TotalPlanWords(ts[1..])
  }

  /** The word the plan reads argument i from. */
  function PlanIndex(ts: seq<Ty>, i: nat): nat
    requires i <= |ts|
  {
    TotalPlanWords(ts[..i])
  }

  /** A scalar, or one-element fixed arrays around one. */
  predicate OneWord(t: Ty) {
    t.Single? || (t.FixedOf? && t.count == 1 && OneWord(t.elem))
  }

  /** The types counted right: no fixed arrays, those of one-word elements, and those of a single dynamic one. */
  predicate CountedRight(t: Ty) {
    t.FixedOf? ==> if IsDynamic(t.elem) then t.count == 1 else OneWord(t.elem)
  }

  lemma {:induction false} OneWordIff(t: Ty)
    requires Proper(t)
    ensures HeadWords(t) >= 1
    ensures !IsDynamic(t) ==> (HeadWords(t) == 1 <==> OneWord(t))
  {
    if t.FixedOf? {
      OneWordIff(t.elem);
      if !IsDynamic(t) {
        ProductOne(t.count, HeadWords(t.elem));
      }
    }
  }

  lemma ProductOne(a: nat, b: nat)
    requires a >= 1 && b >= 1
    ensures a * b >= a && a * b >= b
    ensures a * b == 1 <==> a == 1 && b == 1
    ensures a * b == a <==> b == 1
  {
  }

  lemma PlanWordsRightIff(t: Ty)
    requires Proper(t)
    ensures PlanWords(t) == match t case FixedOf(_, n) => n case _ => 1
    ensures PlanWords(t) == HeadWords(t) <==> CountedRight(t)
  {
    if t.FixedOf? && !IsDynamic(t.elem) {
      OneWordIff(t.elem);
      ProductOne(t.count, HeadWords(t.elem));
    }
  }

  lemma {:induction false} TotalSnoc(ts: seq<Ty>, t: Ty)
    ensures TotalHeadWords(ts + [t]) == TotalHeadWords(ts) + HeadWords(t)
    ensures TotalPlanWords(ts + [t]) == TotalPlanWords(ts) + PlanWords(t)
  {
    if ts == [] {
      assert [] + [t] == [t] && [t][1..] == [];
    } else {
      TotalSnoc(ts[1..], t);
      assert (ts + [t])[1..] == ts[1..] + [t];
    }
  }

  lemma IndexNext(ts: seq<Ty>, i: nat)
    requires i < |ts|
    ensures HeadIndex(ts, i + 1) == HeadIndex(ts, i) + HeadWords(ts[i])
    ensures PlanIndex(ts, i + 1) == PlanIndex(ts, i) + PlanWords(ts[i])
  {
    TotalSnoc(ts[..i], ts[i]);
    assert ts[..i + 1] == ts[..i] + [ts[i]];
  }

  lemma {:induction false} RightUpTo(ts: seq<Ty>, n: nat)
    requires n <= |ts| && forall i :: 0 <= i < |ts| ==> Proper(ts[i])
    requires forall i :: 0 <= i < n ==> CountedRight(ts[i])
    ensures PlanIndex(ts, n) == HeadIndex(ts, n)
  {
    if n == 0 {
      assert ts[..0] == [];
    } else {
      RightUpTo(ts, n - 1);
      IndexNext(ts, n - 1);
      PlanWordsRightIff(ts[n - 1]);
    }
  }

  /**
   The plan reads every data argument from its standard head word if and only if every one but
   the last, omitted or not, is of a type counted right.
   */
  lemma PlanIndicesRightIff(ts: seq<Ty>)
    requires forall i :: 0 <= i < |ts| ==> Proper(ts[i])
    ensures (forall i :: 0 <= i < |ts| ==> PlanIndex(ts, i) == HeadIndex(ts, i))
            <==> forall i :: 0 <= i < |ts| - 1 ==> CountedRight(ts[i])
  {
    hide PlanIndex, HeadIndex, CountedRight, PlanWords, HeadWords;
    if forall i :: 0 <= i < |ts| - 1 ==> CountedRight(ts[i]) {
      forall i | 0 <= i < |ts| ensures PlanIndex(ts, i) == HeadIndex(ts, i) {
        RightUpTo(ts, i);
      }
    }
    if forall i :: 0 <= i < |ts| ==> PlanIndex(ts, i) == HeadIndex(ts, i) {
      forall i | 0 <= i < |ts| - 1 ensures CountedRight(ts[i]) {
        IndexNext(ts, i);
        assert PlanIndex(ts, i + 1) == HeadIndex(ts, i + 1);
        PlanWordsRightIff(ts[i]);
      }
    }
  }

  // ----- a misread -----

  lemma LiesWithin(data: seq<Byte>, at: nat, part: seq<Byte>, inner: nat, sub: seq<Byte>)
    requires Lies(data, at, part) && Lies(part, inner, sub)
    ensures Lies(data, at + inner, sub)
  {
    forall k | 0 <= k < |sub| ensures data[at + inner + k] == sub[k] {
      assert data[at..at + |part|][inner + k] == part[inner + k];
      assert part[inner..inner + |sub|][k] == sub[k];
    }
  }

  /** A static member of a tuple stands at its head index. */
  lemma {:induction false} HeadLies(ts: seq<Ty>, vs: seq<Value>, offset: nat, i: nat)
    requires AllFit(ts, vs) && i < |ts| && !IsDynamic(ts[i])
    ensures Lies(HeadsAndTails(ts, vs, offset).0, 32 * HeadIndex(ts, i), Body(ts[i], vs[i]))
    decreases |ts|
  {
    hide Body, Fits, HeadIndex, Lies, ToBytes;
    var body := Body(ts[0], vs[0]);
    BodySize(ts[0], vs[0]);
    var head := if IsDynamic(ts[0]) then ToBytes(offset, 32) else body;
    var next := if IsDynamic(ts[0]) then offset + |body| else offset;
    var rest := HeadsAndTails(ts[1..], vs[1..], next).0;
    LiesWhole(head, rest);
    if i == 0 {
      HeadIndexZero(ts);
    } else {
      HeadIndexNext(ts, i);
      HeadLies(ts[1..], vs[1..], next, i - 1);
      LiesWithin(head + rest, |head|, rest, 32 * HeadIndex(ts[1..], i - 1), Body(ts[i], vs[i]));
    }
  }

  lemma LiesWhole(a: seq<Byte>, b: seq<Byte>)
    ensures Lies(a + b, 0, a) && Lies(a + b, |a|, b)
  {
    assert (a + b)[0..|a|] == a && (a + b)[|a|..|a| + |b|] == b;
  }

  lemma TupleMember(ts: seq<Ty>, vs: seq<Value>, i: nat)
    requires AllFit(ts, vs) && i < |ts| && !IsDynamic(ts[i])
    ensures Lies(Tuple(ts, vs), 32 * HeadIndex(ts, i), Body(ts[i], vs[i]))
  {
    hide Body, Fits, HeadIndex, Lies, HeadsAndTails;
    var (heads, tails) := HeadsAndTails(ts, vs, 32 * TotalHeadWords(ts));
    HeadLies(ts, vs, 32 * TotalHeadWords(ts), i);
    LiesWhole(heads, tails);
    LiesWithin(heads + tails, 0, heads, 32 * HeadIndex(ts, i), Body(ts[i], vs[i]));
  }

  const PAIR_TYPE: Ty := FixedOf(Single(Address), 2)

  /** (address[2][3], uint256) */
  const NESTED_TYPES: seq<Ty> := [FixedOf(PAIR_TYPE, 3), Single(Word256)]

  lemma NestedIndices()
    ensures PlanIndex(NESTED_TYPES, 1) == 3 && HeadIndex(NESTED_TYPES, 1) == 6
    ensures HeadIndex(Repeated(PAIR_TYPE, 3), 1) == 2 && HeadIndex(Repeated(Single(Address), 2), 1) == 1
  {
    IndexNext(NESTED_TYPES, 0);
    IndexNext(Repeated(PAIR_TYPE, 3), 0);
    IndexNext(Repeated(Single(Address), 2), 0);
    assert NESTED_TYPES[..0] == [] && Repeated(PAIR_TYPE, 3)[..0] == [] && Repeated(Single(Address), 2)[..0] == [];
  }

  /** The word a pair array's fourth address stands in. */
  lemma FourthAddressLies(pairs: seq<Value>, n: Value)
    requires AllFit(NESTED_TYPES, [Many(pairs), n])
    ensures |pairs| == 3 && pairs[1].Many? && |pairs[1].items| == 2 && FitsScalar(Address, pairs[1].items[1])
    ensures Lies(Tuple(NESTED_TYPES, [Many(pairs), n]), 96, EncodeScalar(Address, pairs[1].items[1]))
  {
    var vs := [Many(pairs), n];
    assert Fits(NESTED_TYPES[0], vs[0]) && Fits(PAIR_TYPE, pairs[1]) && Fits(Single(Address), pairs[1].items[1]);
    var pair := pairs[1].items;
    assert AllFit(Repeated(PAIR_TYPE, 3), pairs) && AllFit(Repeated(Single(Address), 2), pair);
    NestedIndices();
    HeadIndexZero(NESTED_TYPES);
    hide Lies, HeadIndex, Tuple, EncodeScalar, FitsScalar;
    TupleMember(NESTED_TYPES, vs, 0);
    TupleMember(Repeated(PAIR_TYPE, 3), pairs, 1);
    TupleMember(Repeated(Single(Address), 2), pair, 1);
    var data, outer := Tuple(NESTED_TYPES, vs), Tuple(Repeated(PAIR_TYPE, 3), pairs);
    LiesWithin(data, 0, outer, 64, Body(PAIR_TYPE, pairs[1]));
    LiesWithin(data, 64, Body(PAIR_TYPE, pairs[1]), 32, Body(Single(Address), pair[1]));
  }

  /**
   For (address[2][3], uint256) the plan reads the number from word 3 instead of word 6: the
   field gets the fourth address as a number, whatever number was encoded.
   */
  lemma NestedArrayMisreads(pairs: seq<Value>, n: Value)
    requires AllFit(NESTED_TYPES, [Many(pairs), n])
    ensures PlanIndex(NESTED_TYPES, 1) == 3 && HeadIndex(NESTED_TYPES, 1) == 6
    ensures |pairs| == 3 && pairs[1].Many? && |pairs[1].items| == 2 && FitsScalar(Address, pairs[1].items[1])
    ensures Read(NESTED_TYPES[1], Tuple(NESTED_TYPES, [Many(pairs), n]), PlanIndex(NESTED_TYPES, 1))
            == Set(Number(Num(EncodeScalar(Address, pairs[1].items[1]))))
    ensures Read(NESTED_TYPES[1], Tuple(NESTED_TYPES, [Many(pairs), n]), PlanIndex(NESTED_TYPES, 1)) == Set(n)
            <==> n == Number(Num(EncodeScalar(Address, pairs[1].items[1])))
  {
    NestedIndices();
    FourthAddressLies(pairs, n);
    hide Tuple, EncodeScalar, FitsScalar, PlanIndex, HeadIndex, Num;
    LiesMeans(Tuple(NESTED_TYPES, [Many(pairs), n]), 96, EncodeScalar(Address, pairs[1].items[1]));
  }
}
