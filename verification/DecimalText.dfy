/**
 Printing and parsing decimals (protomath/decimal256.go), over ASCII text.

 Printing is String; parsing is ParseDecimal256 with its input normalization.  The two undo
 each other on every coefficient and scale, and normalization is shown to keep exactly the
 digits on either side of the chosen separator.
 */
module DecimalText {
  import opened Decimal256

  const MAX_SCALE: nat := 76

  function Pow10(n: nat): (p: nat)
    ensures p > 0
  {
    if n == 0 then 1 else 10 * Pow10(n - 1)
  }

  lemma {:induction false} Pow10Grows(a: nat, b: nat)
    requires a <= b
    ensures Pow10(a) <= Pow10(b)
  {
    if a < b {
      Pow10Grows(a, b - 1);
    }
  }

  lemma {:induction false} Pow10Adds(a: nat, b: nat)
    ensures Pow10(a + b) == Pow10(a) * Pow10(b)
  {
    if b > 0 {
      Pow10Adds(a, b - 1);
      TenOut(Pow10(a), Pow10(b - 1));
    }
  }

  lemma TenOut(p: nat, q: nat)
    ensures p * (10 * q) == 10 * (p * q)
  {
  }

  /** The largest multiplier is below 2^256. */
  lemma LargestFits()
    ensures Pow10(MAX_SCALE) < TWO_256
  {
    assert Pow10(4) == 1_0000;
    Power(4, 4, 1_0000, 1_0000);
    Power(8, 4, 1_0000_0000, 1_0000);
    Power(8, 8, 1_0000_0000, 1_0000_0000);
    Power(16, 16, 1_0000_0000_0000_0000, 1_0000_0000_0000_0000);
    Power(32, 32, 1_0000_0000_0000_0000_0000_0000_0000_0000, 1_0000_0000_0000_0000_0000_0000_0000_0000);
    Power(64, 12, 1_0000_0000_0000_0000_0000_0000_0000_0000_0000_0000_0000_0000_0000_0000_0000_0000, 1_0000_0000_0000);
    hide Pow10;
  }

  lemma Power(a: nat, b: nat, x: nat, y: nat)
    requires Pow10(a) == x && Pow10(b) == y
    ensures Pow10(a + b) == x * y
  {
    Pow10Adds(a, b);
  }

  datatype Failure = BadScale | BadSyntax | OutOfRange
  datatype Result<T> = Ok(value: T) | Err(why: Failure)

  /** The multiplier of a scale, by repeated multiplication. */
  method NewScale(scale: int) returns (r: Result<Raw>)
    ensures 0 <= scale <= MAX_SCALE ==> r == Ok(Pow10(scale))
    ensures !(0 <= scale <= MAX_SCALE) ==> r == Err(BadScale)
  {
    if scale < 0 || scale > MAX_SCALE {
      return Err(BadScale);
    }
    var multiplier: Raw := 1;
    var i := 0;
    while i < scale
      invariant 0 <= i <= scale && multiplier == Pow10(i)
    {
      Pow10Grows(i + 1, MAX_SCALE);
      LargestFits();
      multiplier := multiplier * 10 % TWO_256;
      i := i + 1;
    }
    return Ok(multiplier);
  }

  // ----- digits -----

  predicate IsDigit(c: char) {
    '0' <= c <= '9'
  }

  predicate IsSpace(c: char) {
    c == ' ' || '\t' <= c <= '\r'
  }

  function Digit(c: char): nat
    requires IsDigit(c)
  {
    c as int - '0' as int
  }

  function DigitChar(d: nat): (c: char)
    requires d < 10
    ensures IsDigit(c) && Digit(c) == d
  {
    (d + '0' as int) as char
  }

  predicate AllDigits(s: string) {
    forall i :: 0 <= i < |s| ==> IsDigit(s[i])
  }

  /** The number a digit string denotes. */
  function Val(s: string): nat
    requires AllDigits(s)
  {
    if s == "" then 0 else Val(s[..|s| - 1]) * 10 + Digit(s[|s| - 1])
  }

  /** Decimal digits without leading zeros. */
  function Dec(n: nat): (s: string)
    ensures s != "" && AllDigits(s)
  {
    if n < 10 then [DigitChar(n)] else Dec(n / 10) + [DigitChar(n % 10)]
  }

  lemma {:induction false} DecDenotes(n: nat)
    ensures Val(Dec(n)) == n
  {
    if n < 10 {
      assert [DigitChar(n)][..0] == "";
    } else {
      DecDenotes(n / 10);
      var s := Dec(n / 10);
      hide Dec;
      assert (s + [DigitChar(n % 10)])[..|s|] == s;
      assert n == n / 10 * 10 + n % 10;
    }
  }

  function Repeat(c: char, n: nat): (s: string)
    ensures |s| == n && forall i :: 0 <= i < n ==> s[i] == c
  {
    seq(n, _ => c)
  }

  lemma {:induction false} ValConcat(s: string, t: string)
    requires AllDigits(s) && AllDigits(t)
    ensures AllDigits(s + t) && Val(s + t) == Val(s) * Pow10(|t|) + Val(t)
  {
    if t == "" {
      assert s + t == s;
    } else {
      var n := |t| - 1;
      ValConcat(s, t[..n]);
      assert (s + t)[..|s + t| - 1] == s + t[..n];
      OneMoreDigit(Val(s), Pow10(n), Val(t[..n]), Digit(t[n]));
    }
  }

  lemma OneMoreDigit(a: nat, p: nat, b: nat, d: nat)
    ensures (a * p + b) * 10 + d == a * (10 * p) + (b * 10 + d)
  {
  }

  lemma {:induction false} ZerosAreZero(n: nat)
    ensures AllDigits(Repeat('0', n)) && Val(Repeat('0', n)) == 0
  {
    if n > 0 {
      ZerosAreZero(n - 1);
      assert Repeat('0', n)[..n - 1] == Repeat('0', n - 1);
    }
  }

  lemma LeadingZeros(n: nat, s: string)
    requires AllDigits(s)
    ensures AllDigits(Repeat('0', n) + s) && Val(Repeat('0', n) + s) == Val(s)
  {
    ZerosAreZero(n);
    ValConcat(Repeat('0', n), s);
  }

  function TrimZeros(s: string): (r: string)
    ensures r == "" || r[0] != '0'
  {
    if s != "" && s[0] == '0' then TrimZeros(s[1..]) else s
  }

  // ----- normalization -----

  function TrimLeft(s: string): string {
    if s != "" && IsSpace(s[0]) then TrimLeft(s[1..]) else s
  }

  function TrimRight(s: string): string {
    if s != "" && IsSpace(s[|s| - 1]) then TrimRight(s[..|s| - 1]) else s
  }

  function LastIndex(s: string, c: char): (i: int)
    ensures -1 <= i < |s|
    ensures i >= 0 ==> s[i] == c
    ensures forall j :: i < j < |s| ==> s[j] != c
  {
    if s == "" then -1 else if s[|s| - 1] == c then |s| - 1 else LastIndex(s[..|s| - 1], c)
  }

  /** The pieces between separators. */
  function Split(s: string, c: char): (parts: seq<string>)
    ensures parts != []
    decreases |s|
  {
    var i := LastIndex(s, c);
    if i < 0 then [s] else Split(s[..i], c) + [s[i + 1..]]
  }

  /** One to three digits, then groups of exactly three. */
  predicate CommaGroupsValid(s: string) {
    var parts := Split(s, ',');
    && |parts| > 1 && 0 < |parts[0]| <= 3 && AllDigits(parts[0])
    && forall i :: 1 <= i < |parts| ==> |parts[i]| == 3 && AllDigits(parts[i])
  }

  /** Which position is the decimal separator, or -1. */
  function SeparatorIndex(s: string): (i: int)
    ensures -1 <= i < |s|
    ensures i >= 0 ==> s[i] in ".,"
  {
    var dot, comma := LastIndex(s, '.'), LastIndex(s, ',');
    if dot >= 0 && comma >= 0 then (if dot > comma then dot else comma)
    else if dot >= 0 then dot
    else if comma < 0 || CommaGroupsValid(s) then -1
    else comma
  }

  predicate Acceptable(c: char) {
    IsDigit(c) || c == '.' || c == ',' || c == '_' || IsSpace(c)
  }

  /** What the scan over the first n characters has written. */
  function Kept(s: string, index: int, n: nat): Result<string>
    requires n <= |s|
  {
    if n == 0 then Ok("")
    else
      match Kept(s, index, n - 1)
      case Err(why) => Err(why)
      case Ok(out) =>
        var c := s[n - 1];
        if IsDigit(c) then Ok(out + [c])
        else if c == '.' || c == ',' then Ok(if n - 1 == index then out + "." else out)
        else if c == '_' || IsSpace(c) then Ok(out)
        else Err(BadSyntax)
  }

  predicate HasDigit(s: string) {
    exists i :: 0 <= i < |s| && IsDigit(s[i])
  }

  function Dots(s: string): nat {
    if s == "" then 0 else Dots(s[..|s| - 1]) + if s[|s| - 1] == '.' then 1 else 0
  }

  function Unsigned(t: string): string
    requires t != ""
  {
    if t[0] == '+' || t[0] == '-' then t[1..] else t
  }

  function Normalized(value: string): Result<(string, bool)> {
    var t := TrimRight(TrimLeft(value));
    if t == "" || Unsigned(t) == "" then Err(BadSyntax)
    else
      var s := Unsigned(t);
      match Kept(s, SeparatorIndex(s), |s|)
      case Err(why) => Err(why)
      case Ok(out) => if !HasDigit(s) || Dots(out) > 1 then Err(BadSyntax) else Ok((out, t[0] == '-'))
  }

  /** The scan itself. */
  method NormalizeDecimalInput(value: string) returns (r: Result<(string, bool)>)
    ensures r == Normalized(value)
  {
    hide SeparatorIndex, TrimLeft, TrimRight;
    var t := TrimRight(TrimLeft(value));
    if t == "" {
      return Err(BadSyntax);
    }
    var neg := t[0] == '-';
    var s := Unsigned(t);
    if s == "" {
      return Err(BadSyntax);
    }
    var decimalIndex := SeparatorIndex(s);
    var b, seenDigit, i := "", false, 0;
    while i < |s|
      invariant i <= |s| && Kept(s, decimalIndex, i) == Ok(b)
      invariant seenDigit <==> exists j :: 0 <= j < i && IsDigit(s[j])
    {
      var c := s[i];
      if IsDigit(c) {
        seenDigit := true;
        b := b + [c];
      } else if c == '.' || c == ',' {
        if i == decimalIndex {
          b := b + ".";
        }
      } else if c == '_' || IsSpace(c) {
      } else {
        KeptFails(s, decimalIndex, i + 1, |s|);
        return Err(BadSyntax);
      }
      i := i + 1;
    }
    if !seenDigit || Dots(b) > 1 {
      return Err(BadSyntax);
    }
    return Ok((b, neg));
  }

  lemma {:induction false} KeptFails(s: string, index: int, i: nat, n: nat)
    requires i <= n <= |s| && Kept(s, index, i) == Err(BadSyntax)
    ensures Kept(s, index, n) == Err(BadSyntax)
  {
    if i < n {
      KeptFails(s, index, i, n - 1);
    }
  }

  // ----- what normalization keeps -----

  function DigitsOf(s: string): (r: string)
    ensures AllDigits(r)
  {
    if s == "" then "" else DigitsOf(s[..|s| - 1]) + if IsDigit(s[|s| - 1]) then [s[|s| - 1]] else ""
  }

  lemma {:induction false} DigitsOfDigits(s: string)
    requires AllDigits(s)
    ensures DigitsOf(s) == s
  {
    if s != "" {
      var n := |s| - 1;
      DigitsOfDigits(s[..n]);
      assert IsDigit(s[n]) && s[..n] + [s[n]] == s;
    }
  }

  /** The digits on either side of the separator, as far as position n. */
  function Shape(s: string, index: int, n: nat): string
    requires n <= |s|
  {
    if 0 <= index < n then DigitsOf(s[..index]) + "." + DigitsOf(s[index + 1..n]) else DigitsOf(s[..n])
  }

  lemma ShapeBefore(s: string, index: int, n: nat)
    requires 0 < n <= |s| && (index < 0 || n <= index)
    ensures Shape(s, index, n) == if IsDigit(s[n - 1]) then Shape(s, index, n - 1) + [s[n - 1]]
            else Shape(s, index, n - 1)
  {
    DigitsOfSnoc(s, 0, n);
    assert s[0..n] == s[..n] && s[0..n - 1] == s[..n - 1];
    hide DigitsOf;
  }

  lemma ShapeAt(s: string, n: nat)
    requires 0 < n <= |s|
    ensures Shape(s, n - 1, n) == Shape(s, n - 1, n - 1) + "."
  {
    NoDigits();
    assert s[n..n] == "";
    hide DigitsOf;
  }

  lemma ConcatAssociates(a: string, b: string, c: string)
    ensures a + (b + c) == a + b + c
  {
  }

  lemma ShapeAfter(s: string, index: nat, n: nat)
    requires index < n - 1 && n <= |s|
    ensures Shape(s, index, n) == if IsDigit(s[n - 1]) then Shape(s, index, n - 1) + [s[n - 1]]
            else Shape(s, index, n - 1)
  {
    DigitsOfSnoc(s, index + 1, n);
    hide DigitsOf, IsDigit;
    var whole, frac := DigitsOf(s[..index]) + ".", DigitsOf(s[index + 1..n - 1]);
    ConcatAssociates(whole, frac, [s[n - 1]]);
  }

  lemma {:induction false} KeptMeans(s: string, index: int, n: nat)
    requires -1 <= index < |s| && (index >= 0 ==> s[index] in ".,") && n <= |s|
    requires forall i :: 0 <= i < n ==> Acceptable(s[i])
    ensures Kept(s, index, n) == Ok(Shape(s, index, n))
  {
    hide Shape;
    if n > 0 {
      KeptMeans(s, index, n - 1);
      assert Acceptable(s[n - 1]);
      if 0 <= index < n - 1 {
        ShapeAfter(s, index, n);
      } else if index == n - 1 {
        assert s[index] == '.' || s[index] == ',';
        ShapeAt(s, n);
      } else {
        ShapeBefore(s, index, n);
      }
    } else {
      ShapeStart(s, index);
    }
  }

  lemma ShapeStart(s: string, index: int)
    ensures Shape(s, index, 0) == ""
  {
    NoDigits();
    assert s[..0] == "";
  }

  lemma NoDigits()
    ensures DigitsOf("") == ""
  {
  }

  lemma DigitsOfSnoc(s: string, a: nat, n: nat)
    requires a < n <= |s|
    ensures DigitsOf(s[a..n]) == if IsDigit(s[n - 1]) then DigitsOf(s[a..n - 1]) + [s[n - 1]] else DigitsOf(s[a..n - 1])
  {
    var t := s[a..n];
    assert t[..|t| - 1] == s[a..n - 1] && t[|t| - 1] == s[n - 1];
    assert DigitsOf(s[a..n - 1]) + "" == DigitsOf(s[a..n - 1]);
  }

  lemma {:induction false} NoDots(s: string)
    requires AllDigits(s)
    ensures Dots(s) == 0
  {
    if s != "" {
      NoDots(s[..|s| - 1]);
    }
  }

  lemma {:induction false} DotsAdd(s: string, t: string)
    ensures Dots(s + t) == Dots(s) + Dots(t)
  {
    if t == "" {
      assert s + t == s;
    } else {
      DotsAdd(s, t[..|t| - 1]);
      assert (s + t)[..|s + t| - 1] == s + t[..|t| - 1];
    }
  }

  /** The normalized form of a body without sign or outer space. */
  function Body(s: string): (r: string)
    ensures Dots(r) <= 1
  {
    var i := SeparatorIndex(s);
    if i < 0 then
      NoDots(DigitsOf(s));
      DigitsOf(s)
    else
      var whole, frac := DigitsOf(s[..i]), DigitsOf(s[i + 1..]);
      NoDots(whole);
      NoDots(frac);
      DotsAdd(whole, ".");
      DotsAdd(whole + ".", frac);
      whole + "." + frac
  }

  predicate Sign(sign: string) {
    sign == "" || sign == "+" || sign == "-"
  }

  predicate Blank(s: string) {
    forall i :: 0 <= i < |s| ==> IsSpace(s[i])
  }

  /** What follows the sign: it may start with anything behind a sign, but does not end in space. */
  predicate Bare(sign: string, s: string) {
    && s != "" && !IsSpace(s[|s| - 1])
    && (sign == "" ==> !IsSpace(s[0]) && s[0] != '+' && s[0] != '-')
  }

  predicate AllAcceptable(s: string) {
    forall i :: 0 <= i < |s| ==> Acceptable(s[i])
  }

  /** Everything but digits and the one separator is dropped, the sign is kept apart, and any
      other character, or the lack of a digit, is an error. */
  lemma NormalizedIs(before: string, sign: string, s: string, after: string)
    requires Blank(before) && Blank(after) && Sign(sign) && Bare(sign, s)
    ensures Normalized(before + (sign + s) + after) ==
            if AllAcceptable(s) && HasDigit(s) then Ok((Body(s), sign == "-")) else Err(BadSyntax)
  {
    hide SeparatorIndex, Kept, Unsigned, TrimLeft, TrimRight, DigitsOf, Body, Acceptable;
    TrimsOuter(before, sign, s, after);
    if AllAcceptable(s) {
      KeptBody(s);
      if HasDigit(s) {
        assert Dots(Body(s)) <= 1;
      }
    } else {
      KeptRejects(s, SeparatorIndex(s), |s|);
    }
  }

  lemma TrimsOuter(before: string, sign: string, s: string, after: string)
    requires Blank(before) && Blank(after) && Sign(sign) && Bare(sign, s)
    ensures var t := sign + s;
            && t != "" && TrimRight(TrimLeft(before + t + after)) == t
            && Unsigned(t) == s && (t[0] == '-' <==> sign == "-")
  {
    var t := sign + s;
    assert t[|t| - 1] == s[|s| - 1];
    if sign == "" {
      assert t == s;
    } else {
      assert t[0] == sign[0] && t[1..] == s;
    }
    TrimsLeft(before, t + after);
    assert before + (t + after) == before + t + after;
    TrimsRight(t, after);
  }

  lemma {:induction false} TrimsLeft(before: string, t: string)
    requires Blank(before) && t != "" && !IsSpace(t[0])
    ensures TrimLeft(before + t) == t
  {
    if before == "" {
      assert before + t == t;
    } else {
      assert (before + t)[1..] == before[1..] + t;
      TrimsLeft(before[1..], t);
    }
  }

  lemma {:induction false} TrimsRight(t: string, after: string)
    requires Blank(after) && t != "" && !IsSpace(t[|t| - 1])
    ensures TrimRight(t + after) == t
  {
    if after == "" {
      assert t + after == t;
    } else {
      var n := |after| - 1;
      assert (t + after)[..|t + after| - 1] == t + after[..n];
      TrimsRight(t, after[..n]);
    }
  }

  lemma {:induction false} KeptRejects(s: string, index: int, n: nat)
    requires n <= |s| && exists i :: 0 <= i < n && !Acceptable(s[i])
    ensures Kept(s, index, n) == Err(BadSyntax)
  {
    if i :| 0 <= i < n - 1 && !Acceptable(s[i]) {
      KeptRejects(s, index, n - 1);
    } else {
      assert !Acceptable(s[n - 1]);
      KeptFailsOnly(s, index, n - 1);
    }
  }

  lemma {:induction false} KeptFailsOnly(s: string, index: int, n: nat)
    requires n <= |s|
    ensures Kept(s, index, n).Err? ==> Kept(s, index, n) == Err(BadSyntax)
  {
    if n > 0 {
      KeptFailsOnly(s, index, n - 1);
    }
  }

  /** Every text is blanks around a sign and a bare rest, or has nothing behind its sign and is an error. */
  lemma EveryText(value: string) returns (before: string, sign: string, s: string, after: string)
    ensures Blank(before) && Blank(after) && Sign(sign) && value == before + (sign + s) + after
    ensures if s == "" then Normalized(value) == Err(BadSyntax) else Bare(sign, s)
  {
    hide Normalized, TrimLeft, TrimRight;
    before := LeftBlanks(value);
    after := RightBlanks(TrimLeft(value));
    var t := TrimRight(TrimLeft(value));
    if t != "" && (t[0] == '+' || t[0] == '-') {
      sign, s := t[..1], t[1..];
    } else {
      sign, s := "", t;
    }
    assert sign + s == t;
    if s == "" {
      NothingBehindSign(value);
    }
  }

  lemma NothingBehindSign(value: string)
    requires var t := TrimRight(TrimLeft(value)); t == "" || Unsigned(t) == ""
    ensures Normalized(value) == Err(BadSyntax)
  {
  }

  lemma {:induction false} LeftBlanks(s: string) returns (before: string)
    ensures Blank(before) && s == before + TrimLeft(s)
    ensures TrimLeft(s) != "" ==> !IsSpace(TrimLeft(s)[0])
  {
    if s != "" && IsSpace(s[0]) {
      var rest := LeftBlanks(s[1..]);
      before := [s[0]] + rest;
      assert s == [s[0]] + s[1..];
      assert before + TrimLeft(s[1..]) == [s[0]] + (rest + TrimLeft(s[1..]));
    } else {
      before := "";
    }
  }

  lemma {:induction false} RightBlanks(s: string) returns (after: string)
    ensures Blank(after) && s == TrimRight(s) + after
    ensures TrimRight(s) != "" ==> !IsSpace(TrimRight(s)[|TrimRight(s)| - 1]) && TrimRight(s)[0] == s[0]
  {
    if s != "" && IsSpace(s[|s| - 1]) {
      var n := |s| - 1;
      var rest := RightBlanks(s[..n]);
      after := rest + [s[n]];
      assert s == s[..n] + [s[n]];
      assert TrimRight(s[..n]) + after == (TrimRight(s[..n]) + rest) + [s[n]];
    } else {
      after := "";
    }
  }

  lemma KeptBody(s: string)
    requires AllAcceptable(s)
    ensures Kept(s, SeparatorIndex(s), |s|) == Ok(Body(s))
  {
    hide SeparatorIndex, Kept, DigitsOf, Acceptable;
    KeptMeans(s, SeparatorIndex(s), |s|);
    assert s[..|s|] == s;
    assert SeparatorIndex(s) >= 0 ==> s[SeparatorIndex(s) + 1..|s|] == s[SeparatorIndex(s) + 1..];
  }

  // ----- parsing -----

  function FirstIndex(s: string, c: char): (i: int)
    ensures -1 <= i < |s|
    ensures i >= 0 ==> s[i] == c
    ensures forall j :: 0 <= j < (if i < 0 then |s| else i) ==> s[j] != c
  {
    if s == "" then -1
    else if s[0] == c then 0
    else
      var i := FirstIndex(s[1..], c);
      if i < 0 then -1 else i + 1
  }

  function FromDecimal(digits: string): Result<Raw> {
    if AllDigits(digits) && Val(digits) < TWO_256 then Ok(Val(digits)) else Err(OutOfRange)
  }

  function Parse(value: string, scale: nat): Result<Raw> {
    match Normalized(value)
    case Err(why) => Err(why)
    case Ok((normalized, neg)) => ParseNormalized(normalized, neg, scale)
  }

  function ParseNormalized(normalized: string, neg: bool, scale: nat): Result<Raw> {
    var dot := FirstIndex(normalized, '.');
    var whole := if dot < 0 then normalized else normalized[..dot];
    var frac := if dot < 0 then "" else normalized[dot + 1..];
    ParseParts(if whole == "" then "0" else whole, frac, neg, scale)
  }

  function ParseParts(whole: string, frac: string, neg: bool, scale: nat): Result<Raw> {
    if |frac| > scale then Err(BadScale)
    else
      var digits := TrimZeros(whole + frac + Repeat('0', scale - |frac|));
      if digits == "" then Ok(0)
      else
        match FromDecimal(digits)
        case Err(why) => Err(why)
        case Ok(mag) =>
          var (out, ok) := FromSignMag(neg, mag);
          if ok then Ok(out) else Err(OutOfRange)
  }

  /** The word of an exact coefficient, if there is one. */
  function Coefficient(v: int): Result<Raw> {
    if !InRange(v) then Err(OutOfRange) else Ok(if v < 0 then v + TWO_256 else v)
  }

  lemma ParsePartsExact(whole: string, frac: string, neg: bool, scale: nat)
    requires AllDigits(whole) && AllDigits(frac)
    ensures ParseParts(whole, frac, neg, scale) ==
            if |frac| > scale then Err(BadScale)
            else Coefficient(SignedBy(neg, Val(whole + frac) * Pow10(scale - |frac|)))
  {
    hide Val, TrimZeros, Pow10;
    if |frac| <= scale {
      var zeros := Repeat('0', scale - |frac|);
      ZerosAreZero(scale - |frac|);
      ValConcat(whole + frac, zeros);
      TrimmedVal(whole + frac + zeros);
    }
  }

  /** Leading zeros do not count. */
  lemma {:induction false} TrimmedVal(s: string)
    requires AllDigits(s)
    ensures AllDigits(TrimZeros(s)) && Val(TrimZeros(s)) == Val(s)
    ensures TrimZeros(s) == "" <==> Val(s) == 0
  {
    if s == "" {
    } else if s[0] == '0' {
      TrimmedVal(s[1..]);
      LeadingZeros(1, s[1..]);
      assert Repeat('0', 1) + s[1..] == s;
      hide Val;
    } else {
      LeadingIsPositive(s);
      hide Val;
    }
  }

  lemma LeadingIsPositive(s: string)
    requires s != "" && AllDigits(s) && s[0] != '0'
    ensures Val(s) > 0
  {
    var head, tail := [s[0]], s[1..];
    ValConcat(head, tail);
    assert head + tail == s;
    assert head[..0] == "" && Val(head) == Digit(s[0]);
    hide Val, Pow10;
    AtLeastFactor(Val(head), Pow10(|tail|));
  }

  lemma AtLeastFactor(v: nat, p: nat)
    requires v >= 1
    ensures v * p >= p
  {
  }

  /**
   Parsing is exact: with the digits before and after the chosen separator, the result is the
   signed coefficient those digits denote at the scale, or the error the input deserves.
   */
  lemma ParseIs(before: string, sign: string, s: string, after: string, scale: nat)
    requires Blank(before) && Blank(after) && Sign(sign) && Bare(sign, s)
    ensures var i := SeparatorIndex(s);
            var whole, frac := DigitsOf(if i < 0 then s else s[..i]), if i < 0 then "" else DigitsOf(s[i + 1..]);
            Parse(before + (sign + s) + after, scale) ==
            if !AllAcceptable(s) || !HasDigit(s) then Err(BadSyntax)
            else if |frac| > scale then Err(BadScale)
            else Coefficient(SignedBy(sign == "-", Val(whole + frac) * Pow10(scale - |frac|)))
  {
    hide Normalized, SeparatorIndex, DigitsOf, ParseNormalized, Coefficient, Val, Pow10, SignedBy, Acceptable, HasDigit;
    NormalizedIs(before, sign, s, after);
    var i := SeparatorIndex(s);
    if i < 0 {
      ParseBody(DigitsOf(s), "", false, sign == "-", scale);
    } else {
      ParseBody(DigitsOf(s[..i]), DigitsOf(s[i + 1..]), true, sign == "-", scale);
    }
  }

  lemma ParseBody(whole: string, frac: string, dotted: bool, neg: bool, scale: nat)
    requires AllDigits(whole) && AllDigits(frac) && (!dotted ==> frac == "")
    ensures ParseNormalized(if dotted then whole + "." + frac else whole, neg, scale) ==
            if |frac| > scale then Err(BadScale)
            else Coefficient(SignedBy(neg, Val(whole + frac) * Pow10(scale - |frac|)))
  {
    hide ParseParts, Coefficient, Val, Pow10, SignedBy, FirstIndex;
    CutAt(whole, frac, dotted);
    ParseWhole(whole, frac, neg, scale);
  }

  /** An empty whole part reads as zero. */
  lemma ParseWhole(whole: string, frac: string, neg: bool, scale: nat)
    requires AllDigits(whole) && AllDigits(frac)
    ensures ParseParts(if whole == "" then "0" else whole, frac, neg, scale) ==
            if |frac| > scale then Err(BadScale)
            else Coefficient(SignedBy(neg, Val(whole + frac) * Pow10(scale - |frac|)))
  {
    hide ParseParts, Coefficient, SignedBy;
    if whole == "" {
      ParsePartsExact("0", frac, neg, scale);
      LeadingZeros(1, frac);
      assert Repeat('0', 1) == "0" && "" + frac == frac;
    } else {
      ParsePartsExact(whole, frac, neg, scale);
    }
  }

  lemma CutAt(whole: string, frac: string, dotted: bool)
    requires AllDigits(whole) && AllDigits(frac) && (!dotted ==> frac == "")
    ensures var body := if dotted then whole + "." + frac else whole;
            var dot := FirstIndex(body, '.');
            && whole == (if dot < 0 then body else body[..dot])
            && frac == (if dot < 0 then "" else body[dot + 1..])
  {
    var body := if dotted then whole + "." + frac else whole;
    var dot := FirstIndex(body, '.');
    if dotted {
      assert body[|whole|] == '.';
      assert forall j :: 0 <= j < |whole| ==> body[j] == whole[j];
      assert dot == |whole|;
    } else {
      assert dot < 0;
    }
  }

  // ----- printing -----

  function Text(x: Raw, scale: nat): string {
    var neg, raw := Negative(x), Dec(Magnitude(x));
    if scale == 0 then
      if neg && raw != "0" then "-" + raw else raw
    else
      var padded := if |raw| <= scale then Repeat('0', scale - |raw| + 1) + raw else raw;
      var point := |padded| - scale;
      var out := padded[..point] + "." + padded[point..];
      if neg && out != "0." + Repeat('0', scale) then "-" + out else out
  }

  lemma ParsePrinted(neg: bool, whole: string, frac: string)
    requires AllDigits(whole) && AllDigits(frac) && whole != ""
    ensures var body := if frac == "" then whole else whole + "." + frac;
            Parse((if neg then "-" else "") + body, |frac|) == Coefficient(SignedBy(neg, Val(whole + frac)))
  {
    hide Parse, SeparatorIndex, DigitsOf, Val, Coefficient, SignedBy, Acceptable;
    var body := if frac == "" then whole else whole + "." + frac;
    PlainSeparator(whole, frac);
    DigitsOfDigits(whole);
    DigitsOfDigits(frac);
    assert HasDigit(body) by {
      assert IsDigit(body[0]);
    }
    if frac != "" {
      assert body[..|whole|] == whole && body[|whole| + 1..] == frac;
    } else {
      assert whole + "" == whole;
    }
    var sign := if neg then "-" else "";
    assert "" + (sign + body) + "" == sign + body;
    ParseIs("", sign, body, "", |frac|);
    assert Val(whole + frac) * Pow10(0) == Val(whole + frac);
  }

  lemma PlainSeparator(whole: string, frac: string)
    requires AllDigits(whole) && AllDigits(frac) && whole != ""
    ensures var body := if frac == "" then whole else whole + "." + frac;
            && (forall sign :: Bare(sign, body)) && AllAcceptable(body)
            && SeparatorIndex(body) == if frac == "" then -1 else |whole|
  {
    hide CommaGroupsValid;
    if frac != "" {
      DottedIsPlain(whole, frac);
    }
  }

  lemma DottedIsPlain(whole: string, frac: string)
    requires AllDigits(whole) && AllDigits(frac) && whole != "" && frac != ""
    ensures var body := whole + "." + frac;
            && (forall sign :: Bare(sign, body)) && AllAcceptable(body) && SeparatorIndex(body) == |whole|
  {
    hide CommaGroupsValid;
    var body := whole + "." + frac;
    assert forall j :: 0 <= j < |whole| ==> body[j] == whole[j];
    assert body[|whole|] == '.';
    assert forall j :: |whole| < j < |body| ==> body[j] == frac[j - |whole| - 1];
  }

  lemma CoefficientOfSigned(x: Raw)
    ensures Coefficient(Signed(x)) == Ok(x)
  {
  }

  /** A printed text is the sign, the digits before the point, and exactly `scale` digits after it. */
  lemma TextIs(x: Raw, scale: nat) returns (whole: string, frac: string)
    ensures AllDigits(whole) && AllDigits(frac) && whole != "" && |frac| == scale
    ensures Val(whole + frac) == Magnitude(x)
    ensures Text(x, scale) == (if Negative(x) then "-" else "") + if frac == "" then whole else whole + "." + frac
  {
    var raw := Dec(Magnitude(x));
    DecDenotes(Magnitude(x));
    var padded := if scale > 0 && |raw| <= scale then Repeat('0', scale - |raw| + 1) + raw else raw;
    if scale > 0 && |raw| <= scale {
      LeadingZeros(scale - |raw| + 1, raw);
    }
    var point := |padded| - scale;
    whole, frac := padded[..point], padded[point..];
    assert whole + frac == padded;
    if Negative(x) {
      NotZero(whole, frac);
    }
    if scale == 0 {
      assert whole == raw && whole + "" == whole;
    }
    hide Val, Dec;
  }

  /** A nonzero number is not printed as zero. */
  lemma NotZero(whole: string, frac: string)
    requires AllDigits(whole) && AllDigits(frac) && Val(whole + frac) > 0
    ensures whole + frac != "0" && whole + "." + frac != "0." + Repeat('0', |frac|)
  {
    ZerosAreZero(1);
    assert Repeat('0', 1) == "0";
    if whole + "." + frac == "0." + Repeat('0', |frac|) {
      var a, b := whole + "." + frac, "0." + Repeat('0', |frac|);
      assert |whole| == 1 && whole[0] == a[0] == b[0];
      assert frac == a[2..] && Repeat('0', |frac|) == b[2..];
      assert whole == "0";
      LeadingZeros(1, frac);
      ZerosAreZero(|frac|);
    }
  }

  /** Parsing a printed value gives it back: every coefficient, every scale. */
  lemma RoundTrip(x: Raw, scale: nat)
    ensures Parse(Text(x, scale), scale) == Ok(x)
  {
    hide Parse, Text, Coefficient, Val;
    var whole, frac := TextIs(x, scale);
    ParsePrinted(Negative(x), whole, frac);
    CoefficientOfSigned(x);
  }

  // ----- grouping -----

  /** Commas before the decimal dot, wherever they stand, do not change what is parsed. */
  lemma GroupingBeforeDot(sign: string, whole: string, frac: string, scale: nat)
    requires Sign(sign) && AllDigits(frac)
    requires forall i :: 0 <= i < |whole| ==> IsDigit(whole[i]) || whole[i] == ','
    ensures Parse(sign + (whole + "." + frac), scale) == Parse(sign + (DigitsOf(whole) + "." + frac), scale)
  {
    hide Parse, DigitsOf, Coefficient, Val, HasDigit;
    DottedParse(sign, whole, frac, scale);
    DottedParse(sign, DigitsOf(whole), frac, scale);
    DigitsOfDigits(DigitsOf(whole));
    SameDigits(whole, frac);
  }

  lemma DottedParse(sign: string, whole: string, frac: string, scale: nat)
    requires Sign(sign) && AllDigits(frac)
    requires forall i :: 0 <= i < |whole| ==> IsDigit(whole[i]) || whole[i] == ','
    ensures Parse(sign + (whole + "." + frac), scale) ==
            if !HasDigit(whole + "." + frac) then Err(BadSyntax)
            else if |frac| > scale then Err(BadScale)
            else Coefficient(SignedBy(sign == "-", Val(DigitsOf(whole) + frac) * Pow10(scale - |frac|)))
  {
    hide Parse, DigitsOf, Val, Coefficient, SignedBy, HasDigit, SeparatorIndex, Pow10;
    DottedSeparator(whole, frac);
    DigitsOfDigits(frac);
    assert "" + (sign + (whole + "." + frac)) + "" == sign + (whole + "." + frac);
    ParseIs("", sign, whole + "." + frac, "", scale);
  }

  lemma DottedSeparator(whole: string, frac: string)
    requires AllDigits(frac)
    requires forall i :: 0 <= i < |whole| ==> IsDigit(whole[i]) || whole[i] == ','
    ensures var s := whole + "." + frac;
            && (forall sign :: Bare(sign, s)) && AllAcceptable(s)
            && SeparatorIndex(s) == |whole| && s[..|whole|] == whole && s[|whole| + 1..] == frac
  {
    var s := whole + "." + frac;
    assert s[|whole|] == '.';
    assert forall j :: 0 <= j < |whole| ==> s[j] == whole[j];
    assert forall j :: |whole| < j < |s| ==> s[j] == frac[j - |whole| - 1];
    assert LastIndex(s, '.') == |whole|;
  }

  lemma SameDigits(whole: string, frac: string)
    ensures HasDigit(whole + "." + frac) <==> HasDigit(DigitsOf(whole) + "." + frac)
  {
    HasDigitAdd(whole, "." + frac);
    HasDigitAdd(DigitsOf(whole), "." + frac);
    assert whole + "." + frac == whole + ("." + frac);
    assert DigitsOf(whole) + "." + frac == DigitsOf(whole) + ("." + frac);
    DigitsOfHas(whole);
  }

  lemma HasDigitAdd(s: string, t: string)
    ensures HasDigit(s + t) <==> HasDigit(s) || HasDigit(t)
  {
    if HasDigit(s) {
      var i :| 0 <= i < |s| && IsDigit(s[i]);
      assert (s + t)[i] == s[i];
    }
    if HasDigit(t) {
      var i :| 0 <= i < |t| && IsDigit(t[i]);
      assert (s + t)[|s| + i] == t[i];
    }
  }

  lemma {:induction false} DigitsOfHas(s: string)
    ensures HasDigit(s) <==> HasDigit(DigitsOf(s))
  {
    if s != "" {
      DigitsOfHas(s[..|s| - 1]);
      HasDigitAdd(s[..|s| - 1], [s[|s| - 1]]);
      assert s == s[..|s| - 1] + [s[|s| - 1]];
      var last := if IsDigit(s[|s| - 1]) then [s[|s| - 1]] else "";
      HasDigitAdd(DigitsOf(s[..|s| - 1]), last);
      if IsDigit(s[|s| - 1]) {
        assert IsDigit([s[|s| - 1]][0]);
      }
    }
  }

  /** Without a dot, well-formed thousands groups are read as one whole number. */
  lemma GroupsAlone(sign: string, s: string, scale: nat)
    requires Sign(sign) && CommaGroupsValid(s)
    ensures Parse(sign + s, scale) == Parse(sign + DigitsOf(s), scale)
    ensures Parse(sign + s, scale) == Coefficient(SignedBy(sign == "-", Val(DigitsOf(s)) * Pow10(scale)))
  {
    hide Parse, DigitsOf, Val, Coefficient, SignedBy, Split;
    GroupsAreDigits(s, Split(s, ','));
    var digits := DigitsOf(s);
    DigitsOfHas(s);
    DigitsOfDigits(digits);
    assert SeparatorIndex(s) == -1 && SeparatorIndex(digits) == -1;
    assert "" + (sign + s) + "" == sign + s && "" + (sign + digits) + "" == sign + digits;
    ParseIs("", sign, s, "", scale);
    ParseIs("", sign, digits, "", scale);
    assert digits + "" == digits;
  }

  lemma GroupsAreDigits(s: string, parts: seq<string>)
    requires parts == Split(s, ',') && CommaGroupsValid(s)
    ensures forall i :: 0 <= i < |s| ==> IsDigit(s[i]) || s[i] == ','
    ensures s != "" && IsDigit(s[0]) && IsDigit(s[|s| - 1])
    ensures HasDigit(s)
  {
    hide Split, LastIndex;
    forall k | 0 <= k < |parts| ensures AllDigits(parts[k]) {
    }
    SplitDigits(s, parts);
    SplitEnds(s, parts);
    assert IsDigit(parts[0][0]);
    var last := parts[|parts| - 1];
    assert |last| == 3 && IsDigit(last[2]);
    hide CommaGroupsValid, AllDigits;
  }

  lemma {:induction false} SplitDigits(s: string, parts: seq<string>)
    requires parts == Split(s, ',') && forall k :: 0 <= k < |parts| ==> AllDigits(parts[k])
    ensures forall i :: 0 <= i < |s| ==> IsDigit(s[i]) || s[i] == ','
    decreases |s|
  {
    var i := LastIndex(s, ',');
    if i >= 0 {
      var before := Split(s[..i], ',');
      assert parts == before + [s[i + 1..]];
      assert forall k :: 0 <= k < |before| ==> before[k] == parts[k];
      SplitDigits(s[..i], before);
      assert parts[|before|] == s[i + 1..] && AllDigits(parts[|before|]);
      assert forall j :: i < j < |s| ==> s[j] == s[i + 1..][j - i - 1];
      assert forall j :: 0 <= j < i ==> s[j] == s[..i][j];
    } else {
      assert parts[0] == s;
    }
  }

  lemma {:induction false} SplitEnds(s: string, parts: seq<string>)
    requires parts == Split(s, ',') && parts[0] != "" && parts[|parts| - 1] != ""
    ensures s != "" && s[0] == parts[0][0] && s[|s| - 1] == parts[|parts| - 1][|parts[|parts| - 1]| - 1]
    decreases |s|
  {
    var i := LastIndex(s, ',');
    if i >= 0 {
      SplitStart(s[..i], Split(s[..i], ','));
    }
  }

  lemma {:induction false} SplitStart(s: string, parts: seq<string>)
    requires parts == Split(s, ',') && parts[0] != ""
    ensures s != "" && s[0] == parts[0][0]
    decreases |s|
  {
    var i := LastIndex(s, ',');
    if i >= 0 {
      SplitStart(s[..i], Split(s[..i], ','));
    }
  }
}
