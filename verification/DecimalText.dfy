/**
 The text of a 256-bit decimal: the digits of the unscaled value with a point put `scale` places from
 the end.  The sign is counted among the digits, which decides when the text is a numeral at all.
 */
module DecimalText {
  import opened Digits

  /** `raw_value.to_string()`. */
  function RawText(v: int): string {
    if v < 0 then "-" + Print(-v) else Print(v)
  }

  function Zeros(n: nat): (s: string)
    ensures |s| == n && AllDigits(s)
  {
    seq(n, i => '0')
  }

  /** `chars.insert(at, c)`. */
  function Insert(s: string, at: nat, c: char): (r: string)
    requires at <= |s|
    ensures |r| == |s| + 1 && r[at] == c && r[..at] + r[at + 1..] == s
  {
    s[..at] + [c] + s[at..]
  }

  function Pow10(n: nat): nat {
    if n == 0 then 1 else 10 * Pow10(n - 1)
  }

  /** `scale as u32` of the i8 scale: a negative scale becomes a huge one. */
  function ScaleDigits(scale: int): nat
    requires -128 <= scale <= 127
  {
    if scale < 0 then 0x1_0000_0000 + scale else scale
  }

  /** The number of units of the last fractional place in `whole.fraction`. */
  function Worth(whole: string, fraction: string): nat
    requires AllDigits(whole) && AllDigits(fraction)
  {
    ParseNat(whole) * Pow10(|fraction|) + ParseNat(fraction)
  }

  /** A numeral with sign, at least one integer digit and exactly `scale` fractional digits, worth v / 10^scale. */
  predicate Split(text: string, v: int, scale: nat, whole: string, fraction: string) {
    text == (if v < 0 then "-" else "") + whole + "." + fraction &&
    AllDigits(whole) && AllDigits(fraction) && whole != [] && |fraction| == scale &&
    Worth(whole, fraction) == if v < 0 then -v else v
  }

  ghost predicate IsNumeral(text: string, v: int, scale: nat) {
    exists whole, fraction :: Split(text, v, scale, whole, fraction)
  }

  // ---------- Digit arithmetic ----------

  lemma {:induction false} ParseConcat(a: string, b: string)
    requires AllDigits(a) && AllDigits(b)
    ensures AllDigits(a + b) && ParseNat(a + b) == ParseNat(a) * Pow10(|b|) + ParseNat(b)
    decreases |b|
  {
    if b == [] {
      assert a + b == a;
    } else {
      var front, last := b[..|b| - 1], b[|b| - 1];
      ParseConcat(a, front);
      assert (a + b)[..|a + b| - 1] == a + front && (a + b)[|a + b| - 1] == last;
      assert ParseNat(a + b) == 10 * ParseNat(a + front) + DigitValue(last);
      assert ParseNat(b) == 10 * ParseNat(front) + DigitValue(last) && Pow10(|b|) == 10 * Pow10(|front|);
      TimesTen(ParseNat(a), Pow10(|front|));
      hide ParseNat, Pow10;
    }
  }

  lemma TimesTen(a: nat, b: nat)
    ensures 10 * (a * b) == a * (10 * b)
  {
  }

  lemma {:induction false} ParseZeros(n: nat)
    ensures ParseNat(Zeros(n)) == 0
  {
    if n > 0 {
      assert Zeros(n)[..n - 1] == Zeros(n - 1);
      ParseZeros(n - 1);
    }
  }

  /** A positive number has more than `n` digits exactly when it is at least 10^n. */
  lemma {:induction false} PrintLength(v: nat, n: nat)
    requires v > 0
    ensures |Print(v)| > n <==> v >= Pow10(n)
    decreases v
  {
    if n > 0 {
      if v < 10 {
        PowAtLeast(n - 1);
      } else {
        PrintLength(v / 10, n - 1);
      }
    }
  }

  lemma {:induction false} PowAtLeast(n: nat)
    ensures Pow10(n) >= 1
  {
    if n > 0 { PowAtLeast(n - 1); }
  }

  lemma SplitAt(digits: string, scale: nat)
    requires AllDigits(digits) && scale < |digits|
    ensures var at := |digits| - scale;
            AllDigits(digits[..at]) && AllDigits(digits[at..]) && |digits[at..]| == scale &&
            Worth(digits[..at], digits[at..]) == ParseNat(digits)
  {
    var at := |digits| - scale;
    assert digits == digits[..at] + digits[at..];
    ParseConcat(digits[..at], digits[at..]);
  }

  // ---------- The branch ----------

  /** The condition under which the text is a numeral for v / 10^scale. */
  predicate WellPlaced(v: int, scale: nat) {
    v >= 0 || -v >= Pow10(scale)
  }

  lemma InsertPoint(sign: string, digits: string, at: nat)
    requires at <= |digits|
    ensures Insert(sign + digits, |sign| + at, '.') == sign + digits[..at] + "." + digits[at..]
  {
    var chars := sign + digits;
    assert chars[..|sign| + at] == sign + digits[..at] && chars[|sign| + at..] == digits[at..];
  }

  /** The digits of the magnitude, enough of them, split at the point. */
  lemma DigitsSplit(v: int, scale: nat, sign: string, digits: string)
    requires sign == (if v < 0 then "-" else "") && AllDigits(digits) && scale < |digits|
    requires ParseNat(digits) == if v < 0 then -v else v
    ensures IsNumeral(Insert(sign + digits, |sign| + |digits| - scale, '.'), v, scale)
  {
    hide *;
    var at := |digits| - scale;
    SplitAt(digits, scale);
    InsertPoint(sign, digits, at);
    Assembled(v, scale, sign, digits[..at], digits[at..]);
  }

  lemma Assembled(v: int, scale: nat, sign: string, whole: string, fraction: string)
    requires sign == (if v < 0 then "-" else "")
    requires AllDigits(whole) && AllDigits(fraction) && whole != [] && |fraction| == scale
    requires Worth(whole, fraction) == if v < 0 then -v else v
    ensures IsNumeral(sign + whole + "." + fraction, v, scale)
  {
    hide ParseNat, Worth;
    assert Split(sign + whole + "." + fraction, v, scale, whole, fraction);
  }

  lemma PaddedDigits(v: nat, zeros: nat)
    ensures var digits := Zeros(zeros) + Print(v);
            AllDigits(digits) && |digits| == zeros + |Print(v)| && ParseNat(digits) == v
  {
    hide ParseNat, Pow10, Print;
    ParseConcat(Zeros(zeros), Print(v));
    ParseZeros(zeros);
  }

  lemma PaddedIsNumeral(v: nat, scale: nat)
    requires |Print(v)| <= scale
    ensures IsNumeral(Insert(Zeros(scale - |Print(v)| + 1) + Print(v), 1, '.'), v, scale)
  {
    hide *;
    PaddedDigits(v, scale - |Print(v)| + 1);
    var digits := Zeros(scale - |Print(v)| + 1) + Print(v);
    DigitsSplit(v, scale, "", digits);
    assert "" + digits == digits;
  }

  /** The raw text is a sign and the digits of the magnitude. */
  lemma RawParts(v: int) returns (sign: string, digits: string)
    ensures sign == (if v < 0 then "-" else "") && digits == Print(if v < 0 then -v else v)
    ensures RawText(v) == sign + digits && AllDigits(digits) && ParseNat(digits) == if v < 0 then -v else v
    ensures |RawText(v)| == |sign| + |digits|
  {
    sign, digits := if v < 0 then "-" else "", Print(if v < 0 then -v else v);
  }

  lemma PlacedIsNumeral(v: int, scale: nat)
    requires WellPlaced(v, scale) && |RawText(v)| > scale
    ensures IsNumeral(Insert(RawText(v), |RawText(v)| - scale, '.'), v, scale)
  {
    assert v >= 0 || -v >= Pow10(scale);
    hide *;
    var sign, digits := RawParts(v);
    if v < 0 { PrintLength(-v, scale); }
    DigitsSplit(v, scale, sign, digits);
  }

  /** Every character of a numeral for a number that is not negative is a digit or the point. */
  lemma NoSign(text: string, w: int, scale: nat, i: nat)
    requires w >= 0 && IsNumeral(text, w, scale) && i < |text|
    ensures text[i] != '-'
  {
    var whole, fraction :| Split(text, w, scale, whole, fraction);
    if i < |whole| {
      assert text[i] == whole[i];
    } else if i > |whole| {
      assert text[i] == fraction[i - |whole| - 1];
    }
  }

  /** A text is a numeral for one number at most. */
  lemma NumeralUnique(text: string, v: int, w: int, scale: nat)
    requires IsNumeral(text, v, scale) && IsNumeral(text, w, scale)
    ensures v == w
  {
    hide ParseNat, Pow10, Worth;
    SignShown(text, v, scale);
    SignShown(text, w, scale);
    var whole, fraction :| Split(text, v, scale, whole, fraction);
    var whole', fraction' :| Split(text, w, scale, whole', fraction');
    var sign := if v < 0 then "-" else "";
    assert |whole| == |whole'|;
    assert whole == text[|sign|..|sign| + |whole|] && whole' == text[|sign|..|sign| + |whole|];
    assert fraction == text[|sign| + |whole| + 1..] && fraction' == text[|sign| + |whole| + 1..];
  }

  lemma SignShown(text: string, v: int, scale: nat)
    requires IsNumeral(text, v, scale)
    ensures text != "" && (text[0] == '-' <==> v < 0)
  {
    hide ParseNat, Pow10, Worth;
    var whole, fraction :| Split(text, v, scale, whole, fraction);
    if v < 0 {
      assert text == "-" + (whole + "." + fraction);
    } else {
      assert text == whole + ("." + fraction) && text[0] == whole[0];
    }
  }

  /** A misplaced point leaves a text with the sign inside, or with no digit before the point. */
  lemma Misplaced(v: int, scale: nat, text: string) returns (i: nat)
    requires !WellPlaced(v, scale) && scale > 0
    requires text == if |RawText(v)| <= scale then Insert(Zeros(scale - |RawText(v)| + 1) + RawText(v), 1, '.')
                     else Insert(RawText(v), |RawText(v)| - scale, '.')
    ensures i < |text| && text[i] == '-'
    ensures if i == 0 then |text| == scale + 2 else text[0] == '0'
  {
    PrintLength(-v, scale);
    i := if |RawText(v)| <= scale then scale - |RawText(v)| + 2 else 0;
  }

  /** So it is no numeral at all, for whatever number. */
  lemma MisplacedIsNot(v: int, scale: nat, text: string, w: int)
    requires !WellPlaced(v, scale) && scale > 0
    requires text == if |RawText(v)| <= scale then Insert(Zeros(scale - |RawText(v)| + 1) + RawText(v), 1, '.')
                     else Insert(RawText(v), |RawText(v)| - scale, '.')
    ensures !IsNumeral(text, w, scale)
  {
    var i := Misplaced(v, scale, text);
    hide *;
    if IsNumeral(text, w, scale) {
      SignShown(text, w, scale);
      if w >= 0 { NoSign(text, w, scale, i); } else { NumeralLength(text, w, scale); }
    }
  }

  lemma NumeralLength(text: string, w: int, scale: nat)
    requires w < 0 && IsNumeral(text, w, scale)
    ensures |text| > scale + 2
  {
  }

  /** What the text with the point `scale` places from the end is a numeral for. */
  lemma OnlyNumeral(text: string, v: int, w: int, scale: nat)
    requires IsNumeral(text, v, scale)
    ensures IsNumeral(text, w, scale) <==> w == v
  {
    hide *;
    if IsNumeral(text, w, scale) { NumeralUnique(text, v, w, scale); }
  }

  /** A negative scale asks for v * 10^-scale, with 2^32 + scale decimals like every text of that column. */
  function Meant(v: int, scale: int): int
    requires -128 <= scale < 0
  {
    v * Pow10(ScaleDigits(scale) - scale)
  }

  lemma MeantIsAnother(v: int, scale: int)
    requires -128 <= scale < 0
    ensures Meant(v, scale) == v <==> v == 0
  {
    hide Pow10;
    var n := ScaleDigits(scale) - scale;
    PowTimesTen(n);
    if v != 0 { NotTimes(v, Pow10(n)); }
  }

  lemma NotTimes(v: int, p: nat)
    requires v != 0 && p > 1
    ensures v * p != v
  {
    assert v * p - v == v * (p - 1);
  }

  lemma PowTimesTen(n: nat)
    requires n > 0
    ensures Pow10(n) > 1
  {
    PowAtLeast(n - 1);
  }

  /** One value of the column.  The text is a numeral exactly when the value is not negative or has more digits than
      the point's place, and then for v / 10^scale alone; with a negative scale the right number is v * 10^-scale, and
      only a zero is written right. */
  method EncodeDecimal(v: int, scale: int) returns (text: string)
    requires -128 <= scale <= 127
    ensures scale == 0 ==> text == RawText(v)
    ensures scale != 0 ==>
            var d := if scale < 0 then 0x1_0000_0000 + scale else scale; var point := |text| - d - 1;
            point > 0 && text[point] == '.' &&
            text[..point] + text[point + 1..] ==
              Zeros(if |RawText(v)| <= d then d + 1 - |RawText(v)| else 0) + RawText(v)
    ensures scale != 0 ==>
            var d := if scale < 0 then 0x1_0000_0000 + scale else scale;
            forall w :: IsNumeral(text, w, d) <==> w == v && (v >= 0 || |RawText(v)| - 1 > d)
    ensures scale < 0 ==> (IsNumeral(text, Meant(v, scale), 0x1_0000_0000 + scale) <==> v == 0)
  {
    hide ParseNat, Pow10, Print, IsNumeral, Insert, Meant;
    var digits := ScaleDigits(scale);
    var chars := RawText(v);
    if digits == 0 { return chars; }
    if |chars| <= digits {
      var zerosNeeded := digits - |chars| + 1;
      chars := Zeros(zerosNeeded) + chars;
      chars := Insert(chars, 1, '.');
      if v >= 0 { PaddedIsNumeral(v, digits); }
    } else {
      var decimalPos := |chars| - digits;
      chars := Insert(chars, decimalPos, '.');
      if WellPlaced(v, digits) { PlacedIsNumeral(v, digits); }
    }
    text := chars;
    if v < 0 { PrintLength(-v, digits); }
    assert WellPlaced(v, digits) <==> v >= 0 || |RawText(v)| - 1 > digits;
    forall w ensures IsNumeral(text, w, digits) <==> w == v && WellPlaced(v, digits) {
      if WellPlaced(v, digits) { OnlyNumeral(text, v, w, digits); } else { MisplacedIsNot(v, digits, text, w); }
    }
    if scale < 0 { MeantIsAnother(v, scale); }
  }
}
