/**
 Which comma or dot separates the fraction (protomath/decimal256.go), by the form of the text.

 DecimalText states parsing through the position the code chooses.  Here the three forms a
 text can have are told apart by its own characters, and what each denotes is said in
 digits, so that the choice itself is pinned down.
 */
module DecimalSeparators {
  import opened Decimal256
  import opened DecimalText

  /** What a sign, whole digits and fraction digits denote at a scale. */
  function Reads(sign: string, whole: string, frac: string, scale: nat): Result<Raw>
    requires AllDigits(whole) && AllDigits(frac)
  {
    if |frac| > scale then Err(BadScale)
    else
      var v := Val(whole + frac) * Pow10(scale - |frac|);
      if sign == "-" then (if v > TWO_255 then Err(OutOfRange) else Ok(if v == 0 then 0 else TWO_256 - v))
      else if v >= TWO_255 then Err(OutOfRange)
      else Ok(v)
  }

  /** Digits, underscores and blanks only. */
  predicate Unseparated(s: string) {
    AllAcceptable(s) && forall i :: 0 <= i < |s| ==> s[i] != '.' && s[i] != ','
  }

  /** The text parsed: a body between optional sign and outer blanks. */
  predicate Framed(before: string, sign: string, s: string, after: string) {
    Blank(before) && Blank(after) && Sign(sign) && Bare(sign, s)
  }

  lemma ReadsCoefficient(sign: string, whole: string, frac: string, scale: nat)
    requires Sign(sign) && AllDigits(whole) && AllDigits(frac)
    ensures Reads(sign, whole, frac, scale) ==
            if |frac| > scale then Err(BadScale)
            else Coefficient(SignedBy(sign == "-", Val(whole + frac) * Pow10(scale - |frac|)))
  {
    hide Val, Pow10;
  }

  lemma ParseAt(before: string, sign: string, s: string, after: string, i: int, scale: nat)
    requires Framed(before, sign, s, after) && AllAcceptable(s) && HasDigit(s) && i == SeparatorIndex(s)
    ensures var whole, frac := DigitsOf(if i < 0 then s else s[..i]), if i < 0 then "" else DigitsOf(s[i + 1..]);
            Parse(before + (sign + s) + after, scale) == Reads(sign, whole, frac, scale)
  {
    hide Parse, SeparatorIndex, DigitsOf, Reads, Coefficient, SignedBy, Val, Pow10, Acceptable, HasDigit;
    ParseIs(before, sign, s, after, scale);
    var whole, frac := DigitsOf(if i < 0 then s else s[..i]), if i < 0 then "" else DigitsOf(s[i + 1..]);
    ReadsCoefficient(sign, whole, frac, scale);
  }

  // ----- no separator -----

  lemma NoSeparator(before: string, sign: string, s: string, after: string, scale: nat)
    requires Framed(before, sign, s, after) && Unseparated(s) && HasDigit(s)
    ensures Parse(before + (sign + s) + after, scale) == Reads(sign, DigitsOf(s), "", scale)
  {
    hide Parse, Reads, DigitsOf, HasDigit, CommaGroupsValid;
    assert SeparatorIndex(s) == -1;
    ParseAt(before, sign, s, after, -1, scale);
  }

  // ----- a dot somewhere -----

  lemma LastIs(whole: string, c: char, frac: string, d: char)
    requires Unseparated(frac) && c in ".," && d in ".,"
    ensures var s := whole + [c] + frac;
            && (c == d ==> LastIndex(s, d) == |whole|)
            && (c != d ==> LastIndex(s, d) < |whole| && (LastIndex(s, d) >= 0 <==> d in whole))
            && s[..|whole|] == whole && s[|whole| + 1..] == frac
  {
    var s := whole + [c] + frac;
    assert s[|whole|] == c;
    assert forall j :: |whole| < j < |s| ==> s[j] == frac[j - |whole| - 1];
    assert forall j :: 0 <= j < |whole| ==> s[j] == whole[j];
    if d in whole {
      var k :| 0 <= k < |whole| && whole[k] == d;
      assert s[k] == d;
    }
  }

  /** As soon as there is a dot, the last dot or comma separates, whichever it is, and the
      others drop out: "1,234.56" and "1.234,56" are one number. */
  lemma LaterSeparates(before: string, sign: string, whole: string, c: char, frac: string, after: string, scale: nat)
    requires c in ".," && (c == '.' || '.' in whole)
    requires Framed(before, sign, whole + [c] + frac, after)
    requires AllAcceptable(whole) && Unseparated(frac) && HasDigit(whole + [c] + frac)
    ensures Parse(before + (sign + (whole + [c] + frac)) + after, scale) ==
            Reads(sign, DigitsOf(whole), DigitsOf(frac), scale)
  {
    hide Parse, Reads, DigitsOf, HasDigit, CommaGroupsValid, LastIndex;
    var s := whole + [c] + frac;
    LastIs(whole, c, frac, '.');
    LastIs(whole, c, frac, ',');
    assert SeparatorIndex(s) == |whole|;
    ParseAt(before, sign, s, after, |whole|, scale);
  }

  // ----- commas alone -----

  function Join(groups: seq<string>): string
    requires groups != []
  {
    if |groups| == 1 then groups[0]
    else Join(groups[..|groups| - 1]) + "," + groups[|groups| - 1]
  }

  /** One to three digits, then groups of three. */
  predicate Thousands(groups: seq<string>)
    requires groups != []
  {
    && 1 <= |groups[0]| <= 3
    && (forall i :: 1 <= i < |groups| ==> |groups[i]| == 3)
    && (forall i :: 0 <= i < |groups| ==> AllDigits(groups[i]))
  }

  lemma {:induction false} JoinHasNoDot(groups: seq<string>)
    requires groups != [] && forall i :: 0 <= i < |groups| ==> Unseparated(groups[i])
    ensures AllAcceptable(Join(groups)) && '.' !in Join(groups)
  {
    if |groups| > 1 {
      JoinHasNoDot(groups[..|groups| - 1]);
    }
  }

  lemma {:induction false} SplitsJoined(groups: seq<string>)
    requires groups != [] && forall i :: 0 <= i < |groups| ==> Unseparated(groups[i])
    ensures Split(Join(groups), ',') == groups
  {
    var n := |groups| - 1;
    var s := Join(groups);
    if n == 0 {
      assert LastIndex(s, ',') == -1;
      assert groups == [groups[0]];
    } else {
      SplitsJoined(groups[..n]);
      LastIs(Join(groups[..n]), ',', groups[n], ',');
      assert s == Join(groups[..n]) + [','] + groups[n];
      assert groups == groups[..n] + [groups[n]];
      hide Join, LastIndex;
    }
  }

  lemma GroupsAreThousands(groups: seq<string>)
    requires |groups| >= 2 && forall i :: 0 <= i < |groups| ==> Unseparated(groups[i])
    ensures CommaGroupsValid(Join(groups)) <==> Thousands(groups)
  {
    hide Split, Join, Unseparated;
    SplitsJoined(groups);
  }

  /** With commas only, they group exactly when one to three digits are followed by groups of
      three; otherwise the last one separates and the others drop out. */
  lemma CommasAlone(before: string, sign: string, groups: seq<string>, after: string, scale: nat)
    requires |groups| >= 2 && forall i :: 0 <= i < |groups| ==> Unseparated(groups[i])
    requires Framed(before, sign, Join(groups), after) && HasDigit(Join(groups))
    ensures var n := |groups| - 1;
            Parse(before + (sign + Join(groups)) + after, scale) ==
            if Thousands(groups) then Reads(sign, DigitsOf(Join(groups)), "", scale)
            else Reads(sign, DigitsOf(Join(groups[..n])), DigitsOf(groups[n]), scale)
  {
    var n := |groups| - 1;
    var s, whole := Join(groups), Join(groups[..n]);
    GroupsAreThousands(groups);
    JoinHasNoDot(groups);
    assert s == whole + [','] + groups[n];
    LastIs(whole, ',', groups[n], ',');
    assert LastIndex(s, '.') == -1;
    var i := if Thousands(groups) then -1 else |whole|;
    assert SeparatorIndex(s) == i by {
      hide Thousands, CommaGroupsValid, LastIndex, Join;
    }
    hide Join, Thousands, Unseparated, SeparatorIndex, LastIndex, CommaGroupsValid, Parse, Reads, DigitsOf, HasDigit;
    ParseAt(before, sign, s, after, i, scale);
  }

  /** One comma between digits is a decimal separator, as a dot is, unless it looks like a
      thousands comma. */
  lemma OneComma(sign: string, w: string, f: string, scale: nat)
    requires Sign(sign) && AllDigits(w) && AllDigits(f) && w + f != ""
    ensures Parse(sign + (w + "," + f), scale) ==
            if 1 <= |w| <= 3 && |f| == 3 then Parse(sign + (w + f), scale) else Parse(sign + (w + "." + f), scale)
    ensures Parse(sign + (w + "." + f), scale) == Reads(sign, w, f, scale)
    ensures Parse(sign + (w + f), scale) == Reads(sign, w + f, "", scale)
  {
    hide Parse, Reads, DigitsOf, SeparatorIndex;
    DigitsOfDigits(w);
    DigitsOfDigits(f);
    DigitsOfDigits(w + f);
    CommaDropsOut(w, f);
    DigitsUnseparated(w);
    DigitsUnseparated(f);
    DigitsUnseparated(w + f);
    assert w + "" + f == w + f;
    DigitsBetween(w, "", f, sign);
    DigitsBetween(w, ".", f, sign);
    DigitsBetween(w, ",", f, sign);
    assert "" + (sign + (w + f)) + "" == sign + (w + f);
    NoSeparator("", sign, w + f, "", scale);
    assert "" + (sign + (w + "." + f)) + "" == sign + (w + "." + f);
    LaterSeparates("", sign, w, '.', f, "", scale);
    var groups := [w, f];
    assert groups[..1] == [w] && Join(groups) == w + "," + f && Join([w]) == w;
    assert "" + (sign + (w + "," + f)) + "" == sign + (w + "," + f);
    hide HasDigit, Bare;
    CommasAlone("", sign, groups, "", scale);
    assert Thousands(groups) <==> 1 <= |w| <= 3 && |f| == 3;
  }

  lemma {:induction false} DigitsOfAdd(s: string, t: string)
    ensures DigitsOf(s + t) == DigitsOf(s) + DigitsOf(t)
  {
    if t == "" {
      assert s + t == s;
    } else {
      var n := |t| - 1;
      DigitsOfAdd(s, t[..n]);
      assert (s + t)[..|s + t| - 1] == s + t[..n];
    }
  }

  lemma DigitsBetween(w: string, mid: string, f: string, sign: string)
    requires AllDigits(w) && AllDigits(f) && w + f != "" && mid in {"", ".", ","}
    ensures HasDigit(w + mid + f) && Bare(sign, w + mid + f)
  {
    var s := w + mid + f;
    if w != "" {
      assert s[0] == w[0] && IsDigit(s[0]);
    } else {
      assert s[|s| - 1] == f[|f| - 1] && IsDigit(s[|s| - 1]);
    }
    assert s[|s| - 1] == (if f != "" then f[|f| - 1] else if mid != "" then mid[0] else w[|w| - 1]);
  }

  lemma DigitsUnseparated(w: string)
    requires AllDigits(w)
    ensures Unseparated(w)
  {
    forall i | 0 <= i < |w| ensures Acceptable(w[i]) && w[i] != '.' && w[i] != ',' {
      assert IsDigit(w[i]);
    }
  }

  lemma CommaDropsOut(w: string, f: string)
    requires AllDigits(w) && AllDigits(f)
    ensures DigitsOf(w + "," + f) == w + f
  {
    assert ","[..0] == "" && DigitsOf(",") == "";
    hide AllDigits, DigitsOf;
    DigitsOfAdd(w, ",");
    DigitsOfAdd(w + ",", f);
    DigitsOfDigits(w);
    DigitsOfDigits(f);
    assert w + "" == w;
  }

  lemma DropsBetween(w: string, c: char, f: string)
    requires AllDigits(w) && AllDigits(f) && !IsDigit(c)
    ensures DigitsOf(w + [c] + f) == w + f
  {
    assert [c][..0] == "" && DigitsOf([c]) == "";
    hide AllDigits, DigitsOf;
    DigitsOfAdd(w, [c]);
    DigitsOfAdd(w + [c], f);
    DigitsOfDigits(w);
    DigitsOfDigits(f);
    assert w + "" == w;
  }

  /** Between digits an underscore or a blank drops out; any other character, unless it is a digit
      or a separator, is an error. */
  lemma MiddleCharacter(sign: string, w: string, c: char, f: string, scale: nat)
    requires Sign(sign) && AllDigits(w) && AllDigits(f) && w != "" && f != ""
    requires !('0' <= c <= '9') && c != '.' && c != ','
    ensures Parse(sign + (w + [c] + f), scale) ==
            if c == '_' || c == ' ' || 9 <= c as int <= 13 then Reads(sign, w + f, "", scale) else Err(BadSyntax)
  {
    var s := w + [c] + f;
    assert s[|w|] == c && s[0] == w[0] && s[|s| - 1] == f[|f| - 1];
    assert IsDigit(s[0]) && Bare(sign, s);
    assert "" + (sign + s) + "" == sign + s;
    if c == '_' || c == ' ' || 9 <= c as int <= 13 {
      DigitsUnseparated(w);
      DigitsUnseparated(f);
      DropsBetween(w, c, f);
      MiddleAccepted(w, c, f);
      hide *;
      NoSeparator("", sign, s, "", scale);
    } else {
      assert !Acceptable(s[|w|]);
      hide Parse, Bare, HasDigit, SeparatorIndex, DigitsOf, Reads, Coefficient;
      ParseIs("", sign, s, "", scale);
    }
  }

  lemma MiddleAccepted(w: string, c: char, f: string)
    requires Unseparated(w) && Unseparated(f) && Acceptable(c) && c != '.' && c != ','
    ensures Unseparated(w + [c] + f)
  {
  }

  lemma JoinedLast(s: string, i: nat, parts: seq<string>)
    requires i < |s| && s[i] == ',' && parts != [] && Join(parts) == s[..i]
    ensures Join(parts + [s[i + 1..]]) == s
  {
    var all := parts + [s[i + 1..]];
    assert all[..|all| - 1] == parts;
    assert s == s[..i] + "," + s[i + 1..];
  }

  lemma AroundLast(s: string, i: nat)
    requires AllAcceptable(s) && i < |s| && forall j :: i < j < |s| ==> s[j] != '.' && s[j] != ','
    ensures AllAcceptable(s[..i]) && Unseparated(s[i + 1..])
  {
  }

  lemma {:induction false} JoinsSplit(s: string)
    requires AllAcceptable(s) && forall j :: 0 <= j < |s| ==> s[j] != '.'
    ensures var parts := Split(s, ',');
            && Join(parts) == s && forall i :: 0 <= i < |parts| ==> Unseparated(parts[i])
    ensures |Split(s, ',')| == 1 ==> Unseparated(s)
    decreases |s|
  {
    var i := LastIndex(s, ',');
    if i >= 0 {
      AroundLast(s, i);
      JoinsSplit(s[..i]);
      hide Join, Unseparated, AllAcceptable;
      JoinedLast(s, i, Split(s[..i], ','));
    }
  }

  /** Every body that parsing accepts has one of the three forms. */
  lemma EveryBody(s: string) returns (whole: string, c: char, frac: string, groups: seq<string>)
    requires AllAcceptable(s)
    ensures || Unseparated(s)
            || (s == whole + [c] + frac && c in ".," && (c == '.' || '.' in whole) && AllAcceptable(whole)
                && Unseparated(frac))
            || (|groups| >= 2 && s == Join(groups) && forall i :: 0 <= i < |groups| ==> Unseparated(groups[i]))
  {
    var dot, comma := LastIndex(s, '.'), LastIndex(s, ',');
    whole, c, frac, groups := "", '.', "", [];
    if dot >= 0 {
      var i := if dot > comma then dot else comma;
      AroundLast(s, i);
      whole, c, frac := s[..i], s[i], s[i + 1..];
      assert s == whole + [c] + frac;
      hide LastIndex, AllAcceptable, Unseparated;
      assert c != '.' ==> whole[dot] == '.';
    } else {
      groups := Split(s, ',');
      JoinsSplit(s);
      hide *;
      assert groups != [];
    }
  }

  /** A comma before one digit, and before three. */
  lemma Examples()
    ensures Parse("1,5", 2) == Ok(150)
    ensures Parse("1,500", 0) == Ok(1500)
  {
    hide Parse;
    assert "" + ("1" + "," + "5") == "1,5" && "1" + "5" == "15";
    assert "" + ("1" + "," + "500") == "1,500" && "1" + "500" + "" == "1500";
    FewDigits();
    OneComma("", "1", "5", 2);
    OneComma("", "1", "500", 0);
    hide Val, Pow10;
  }

  lemma FewDigits()
    ensures AllDigits("15") && Val("15") == 15 && AllDigits("1500") && Val("1500") == 1500
    ensures Pow10(0) == 1 && Pow10(1) == 10
  {
    assert "1500"[..3] == "150" && "150"[..2] == "15" && "15"[..1] == "1" && "1"[..0] == "";
    assert Val("1") == 1;
    assert Val("150") == 150;
  }
}
