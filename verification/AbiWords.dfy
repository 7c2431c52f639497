/**
 Bytes, 32-byte words and hex text (abiunpack/abiunpack.go).
 */
module AbiWords {
  import opened Options

  type Byte = x: nat | x < 256

  const TWO_64: nat := 0x1_0000_0000_0000_0000

  // ----- big-endian numbers -----

  function Pow256(k: nat): (p: nat)
    ensures p > 0
  {
    if k == 0 then 1 else 256 * Pow256(k - 1)
  }

  function Num(bs: seq<Byte>): nat {
    if bs == [] then 0 else Num(bs[..|bs| - 1]) * 256 + bs[|bs| - 1]
  }

  function ToBytes(n: nat, k: nat): (bs: seq<Byte>)
    ensures |bs| == k
  {
    if k == 0 then [] else ToBytes(n / 256, k - 1) + [n % 256]
  }

  lemma {:induction false} NumToBytes(n: nat, k: nat)
    requires n < Pow256(k)
    ensures Num(ToBytes(n, k)) == n
  {
    if k > 0 {
      NumToBytes(n / 256, k - 1);
      assert ToBytes(n, k)[..k - 1] == ToBytes(n / 256, k - 1);
    }
  }

  lemma {:induction false} ToBytesNum(bs: seq<Byte>)
    ensures Num(bs) < Pow256(|bs|) && ToBytes(Num(bs), |bs|) == bs
  {
    if bs != [] {
      var n := |bs| - 1;
      ToBytesNum(bs[..n]);
      assert bs == bs[..n] + [bs[n]];
    }
  }

  lemma {:induction false} Pow256Grows(a: nat, b: nat)
    requires a <= b
    ensures Pow256(a) <= Pow256(b)
  {
    if a < b {
      Pow256Grows(a, b - 1);
    }
  }

  lemma Pow8()
    ensures Pow256(8) == TWO_64
  {
    assert Pow256(3) == 0x100_0000;
    assert Pow256(6) == 0x1_0000_0000_0000;
  }

  /** A number below 2^64 fills a word and reads back. */
  lemma SmallFits(n: nat)
    requires n < TWO_64
    ensures n < Pow256(32) && Num(ToBytes(n, 32)) == n
  {
    Pow8();
    Pow256Grows(8, 32);
    NumToBytes(n, 32);
  }

  function Zeros(n: nat): (bs: seq<Byte>)
    ensures |bs| == n && forall i :: 0 <= i < n ==> bs[i] == 0
  {
    seq(n, _ => 0)
  }

  // ----- words -----

  /** The 32-byte word at an index, if the data reaches that far. */
  function Word(data: seq<Byte>, wordIdx: nat): Option<seq<Byte>> {
    if wordIdx * 32 + 32 > |data| then None else Some(data[wordIdx * 32..wordIdx * 32 + 32])
  }

  function Uint64Word(word: seq<Byte>): Option<nat> {
    if |word| == 32 && Num(word) < TWO_64 then Some(Num(word)) else None
  }

  function Offset(data: seq<Byte>, headWord: nat): Option<nat> {
    match Word(data, headWord)
    case None => None
    case Some(word) =>
      match Uint64Word(word)
      case None => None
      case Some(offset) => if offset > |data| || offset % 32 != 0 then None else Some(offset)
  }

  /** Start and length of the body a head word points to; the body's length never exceeds the data. */
  function DynamicWordRange(data: seq<Byte>, headWord: nat): (r: Option<(nat, nat)>)
    ensures r.Some? ==> r.value.0 + r.value.1 <= |data|
  {
    match Offset(data, headWord)
    case None => None
    case Some(start) =>
      match Word(data, start / 32)
      case None => None
      case Some(lengthWord) =>
        match Uint64Word(lengthWord)
        case None => None
        case Some(length) => if length > |data| - (start + 32) then None else Some((start + 32, length))
  }

  /** A body is found exactly when the head word is a multiple of 32 that leaves room for a
      length word, and that word's length still fits the data behind it. */
  lemma RangeIff(data: seq<Byte>, headWord: nat)
    ensures var r := DynamicWordRange(data, headWord);
            && (r.Some? <==> Follows(data, headWord))
            && (r.Some? ==>
                  var offset := Num(data[32 * headWord..32 * headWord + 32]);
                  r.value == (offset + 32, Num(data[offset..offset + 32])))
  {
    hide Num;
    if Offset(data, headWord).Some? {
      var offset := Offset(data, headWord).value;
      assert 32 * (offset / 32) == offset;
    }
  }

  predicate Follows(data: seq<Byte>, headWord: nat) {
    && 32 * headWord + 32 <= |data|
    && var offset := Num(data[32 * headWord..32 * headWord + 32]);
    && offset < 0x1_0000_0000_0000_0000 && offset % 32 == 0 && offset + 32 <= |data|
    && var length := Num(data[offset..offset + 32]);
    length < 0x1_0000_0000_0000_0000 && offset + 32 + length <= |data|
  }

  // ----- hex -----

  function Nibble(c: char): (r: Option<nat>)
    ensures r.Some? ==> r.value < 16
  {
    if '0' <= c <= '9' then Some(c as int - '0' as int)
    else if 'a' <= c <= 'f' then Some(c as int - 'a' as int + 10)
    else if 'A' <= c <= 'F' then Some(c as int - 'A' as int + 10)
    else None
  }

  function HexDigit(n: nat): (c: char)
    requires n < 16
    ensures Nibble(c) == Some(n)
  {
    if n < 10 then ('0' as int + n) as char else ('a' as int + n - 10) as char
  }

  function ToHex(bs: seq<Byte>): (s: string)
    ensures |s| == 2 * |bs|
  {
    if bs == [] then "" else ToHex(bs[..|bs| - 1]) + [HexDigit(bs[|bs| - 1] / 16), HexDigit(bs[|bs| - 1] % 16)]
  }

  /** Pairs of digits up to the first that is not one; the flag says whether all were. */
  function FromPairs(s: string, n: nat): (r: (seq<Byte>, bool))
    requires 2 * n <= |s|
    ensures r.1 ==> |r.0| == n
  {
    if n == 0 then ([], true)
    else
      var (before, ok) := FromPairs(s, n - 1);
      if !ok then (before, false)
      else
        var hi, lo := Nibble(s[2 * n - 2]), Nibble(s[2 * n - 1]);
        if hi.None? || lo.None? then (before, false) else (before + [hi.value * 16 + lo.value], true)
  }

  function Unprefixed(s: string): string {
    if |s| >= 2 && s[0] == '0' && (s[1] == 'x' || s[1] == 'X') then s[2..] else s
  }

  /** Decoded bytes of hex text: an odd first digit stands for a byte, decoding stops at a bad digit. */
  function FromHex(s: string): seq<Byte> {
    var t := Unprefixed(s);
    if |t| % 2 == 1 then
      if Nibble(t[0]).None? then [] else [Nibble(t[0]).value] + FromPairs(t[1..], |t| / 2).0
    else FromPairs(t, |t| / 2).0
  }

  method AppendHexBytes(text: string) returns (dst: seq<Byte>)
    ensures dst == FromHex(text)
  {
    hide FromPairs, Nibble;
    var s := Unprefixed(text);
    if |s| % 2 == 1 {
      var lo := Nibble(s[0]);
      if lo.None? {
        return [];
      }
      dst := AppendPairs([lo.value], s[1..]);
    } else {
      dst := AppendPairs([], s);
    }
  }

  method AppendPairs(start: seq<Byte>, s: string) returns (dst: seq<Byte>)
    requires |s| % 2 == 0
    ensures dst == start + FromPairs(s, |s| / 2).0
  {
    dst := start;
    var i := 0;
    while i < |s|
      invariant 0 <= i <= |s| && i % 2 == 0
      invariant FromPairs(s, i / 2).1 && dst == start + FromPairs(s, i / 2).0
    {
      var hi, lo := Nibble(s[i]), Nibble(s[i + 1]);
      if hi.None? || lo.None? {
        PairsStop(s, i / 2 + 1, |s| / 2);
        return;
      }
      dst := dst + [hi.value * 16 + lo.value];
      i := i + 2;
    }
  }

  lemma {:induction false} PairsStop(s: string, i: nat, n: nat)
    requires i <= n && 2 * n <= |s| && !FromPairs(s, i).1
    ensures FromPairs(s, n) == FromPairs(s, i)
  {
    if i < n {
      PairsStop(s, i, n - 1);
    }
  }

  /** The strict decoder: exactly 2n digits after an optional prefix. */
  method DecodeCanonical(text: string, n: nat) returns (dst: seq<Byte>, ok: bool)
    ensures ok <==> |Unprefixed(text)| == 2 * n && FromPairs(Unprefixed(text), n).1
    ensures ok ==> |dst| == n && dst == FromHex(text)
  {
    var s := Unprefixed(text);
    dst, ok := [], false;
    if |s| != 2 * n {
      return;
    }
    var i := 0;
    while i < n
      invariant i <= n && FromPairs(s, i) == (dst, true)
    {
      var hi, lo := Nibble(s[i * 2]), Nibble(s[i * 2 + 1]);
      if hi.None? || lo.None? {
        PairsStop(s, i + 1, n);
        return;
      }
      dst := dst + [hi.value * 16 + lo.value];
      i := i + 1;
    }
    ok := true;
  }

  lemma {:induction false} PairsOfHex(bs: seq<Byte>, rest: string)
    ensures FromPairs(ToHex(bs) + rest, |bs|) == (bs, true)
  {
    if bs != [] {
      var n := |bs| - 1;
      var last := [HexDigit(bs[n] / 16), HexDigit(bs[n] % 16)];
      PairsOfHex(bs[..n], last + rest);
      assert ToHex(bs) + rest == ToHex(bs[..n]) + (last + rest);
      assert bs == bs[..n] + [bs[n]];
    }
  }

  /** Decoding undoes encoding, with or without the prefix. */
  lemma HexRoundTrip(bs: seq<Byte>)
    ensures FromHex("0x" + ToHex(bs)) == bs
    ensures FromHex(ToHex(bs)) == bs
  {
    PairsOfHex(bs, "");
    NoPrefix(bs);
    var hex := ToHex(bs);
    hide ToHex, FromPairs, Nibble, Unprefixed;
    assert hex + "" == hex;
    Strips(hex);
  }

  /** Encoded text never looks prefixed: no hex digit is an x. */
  lemma {:induction false} NoPrefix(bs: seq<Byte>)
    ensures forall i :: 0 <= i < |ToHex(bs)| ==> Nibble(ToHex(bs)[i]).Some?
  {
    if bs != [] {
      NoPrefix(bs[..|bs| - 1]);
    }
  }

  predicate IsHexDigit(c: char) {
    '0' <= c <= '9' || 'a' <= c <= 'f' || 'A' <= c <= 'F'
  }

  /** Where each run of digits starts and ends; nothing else is a digit. */
  lemma NibbleIs(c: char)
    ensures Nibble('0') == Some(0) && Nibble('9') == Some(9)
    ensures Nibble('a') == Nibble('A') == Some(10) && Nibble('f') == Nibble('F') == Some(15)
    ensures Nibble(c).Some? <==> IsHexDigit(c)
  {
  }

  function UpperDigit(c: char): (r: char)
    ensures Nibble(c) == Nibble(r) && !('a' <= r <= 'f')
  {
    if 'a' <= c <= 'f' then (c as int - 'a' as int + 'A' as int) as char else c
  }

  function Upper(s: string): (r: string)
    ensures |r| == |s| && forall i :: 0 <= i < |s| ==> r[i] == UpperDigit(s[i])
  {
    seq(|s|, i requires 0 <= i < |s| => UpperDigit(s[i]))
  }

  lemma {:induction false} PairsOfUpper(s: string, n: nat)
    requires 2 * n <= |s|
    ensures FromPairs(Upper(s), n) == FromPairs(s, n)
  {
    hide Nibble, Upper;
    if n > 0 {
      PairsOfUpper(s, n - 1);
    }
  }

  /** The prefix goes, and digits alone never look prefixed. */
  lemma Strips(s: string)
    requires |s| >= 2 ==> Nibble(s[1]).Some?
    ensures Unprefixed(s) == Unprefixed("0x" + s) == Unprefixed("0X" + s) == s
  {
    assert ("0x" + s)[2..] == s && ("0X" + s)[2..] == s;
  }

  lemma EvenHex(s: string, n: nat)
    requires |s| == 2 * n && (n > 0 ==> Nibble(s[1]).Some?)
    ensures FromHex(s) == FromHex("0x" + s) == FromHex("0X" + s) == FromPairs(s, n).0
  {
    hide Nibble, FromPairs, Unprefixed;
    Strips(s);
  }

  /** Upper-case text decodes to the same bytes; the prefix may be upper case too. */
  lemma UpperRoundTrip(bs: seq<Byte>)
    ensures FromHex(Upper(ToHex(bs))) == FromHex("0x" + Upper(ToHex(bs))) == FromHex("0X" + Upper(ToHex(bs))) == bs
  {
    var hex := ToHex(bs);
    PairsOfHex(bs, "");
    PairsOfUpper(hex, |bs|);
    NoPrefix(bs);
    hide *;
    assert hex + "" == hex;
    EvenHex(Upper(hex), |bs|);
  }

  /** An odd number of digits: the first one is a byte of its own. */
  lemma OddRoundTrip(n: nat, bs: seq<Byte>)
    requires n < 16
    ensures FromHex("0x" + ([HexDigit(n)] + ToHex(bs))) == FromHex([HexDigit(n)] + ToHex(bs)) == [n] + bs
  {
    var hex := ToHex(bs);
    PairsOfHex(bs, "");
    NoPrefix(bs);
    hide ToHex, FromPairs, Nibble, HexDigit, Unprefixed;
    assert hex + "" == hex;
    var odd := [HexDigit(n)] + hex;
    assert odd[1..] == hex;
    Strips(odd);
  }

  lemma BadPair(t: string, m: nat, bs: seq<Byte>)
    requires 0 < m && 2 * m <= |t| && FromPairs(t, m - 1) == (bs, true)
    requires Nibble(t[2 * m - 2]).None? || Nibble(t[2 * m - 1]).None?
    ensures FromPairs(t, m) == (bs, false)
  {
    hide Nibble;
  }

  lemma PrefixedHex(t: string, n: nat)
    requires |t| == 2 * n
    ensures FromHex("0x" + t) == FromPairs(t, n).0
  {
    hide FromPairs;
    assert ("0x" + t)[2..] == t;
    assert Unprefixed("0x" + t) == t;
    hide Unprefixed;
  }

  /** Decoding stops at the first pair that is not two digits, and keeps what came before. */
  lemma BadPairStops(bs: seq<Byte>, c: char, d: char, rest: string)
    requires !(IsHexDigit(c) && IsHexDigit(d)) && |rest| % 2 == 0
    ensures FromHex("0x" + (ToHex(bs) + ([c, d] + rest))) == bs
  {
    NibbleIs(c);
    NibbleIs(d);
    hide *;
    var hex, n := ToHex(bs), |bs|;
    var t := hex + ([c, d] + rest);
    PairsOfHex(bs, [c, d] + rest);
    assert t[2 * n] == c && t[2 * n + 1] == d;
    BadPair(t, n + 1, bs);
    var half := n + 1 + |rest| / 2;
    PairsStop(t, n + 1, half);
    PrefixedHex(t, half);
  }
}
