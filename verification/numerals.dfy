/**
 * Canonical numerals (src/riskloom/explanations/sanitizer.py, lines 127-142).  A
 * numeral is ASCII digits and grouping commas with an optional decimal fraction.
 */
module Numerals {
  predicate IsDigit(c: char) {
    '0' <= c <= '9'
  }

  predicate AllDigits(s: string) {
    forall i :: 0 <= i < |s| ==> IsDigit(s[i])
  }

  /** The characters that Python's `str.strip` removes. */
  predicate IsSpace(c: char) {
    var n := c as int;
    || 0x9 <= n <= 0xD || 0x1C <= n <= 0x20 || n == 0x85 || n == 0xA0 || n == 0x1680
    || 0x2000 <= n <= 0x200A || n == 0x2028 || n == 0x2029 || n == 0x202F || n == 0x205F || n == 0x3000
  }

  // ----- the string operations

  function RemoveCommas(s: string): (out: string)
    ensures |out| <= |s|
    ensures forall c :: c in out <==> c in s && c != ','
  {
    if s == "" then "" else (if s[0] == ',' then "" else [s[0]]) + RemoveCommas(s[1..])
  }

  function StripLeft(s: string): (out: string)
    ensures |out| <= |s| && out == s[|s| - |out|..]
    ensures out != "" ==> !IsSpace(out[0])
    ensures s != "" && !IsSpace(s[0]) ==> out == s
  {
    if s != "" && IsSpace(s[0]) then StripLeft(s[1..]) else s
  }

  function StripRight(s: string): (out: string)
    ensures |out| <= |s| && out == s[..|out|]
    ensures out != "" ==> !IsSpace(out[|out| - 1])
    ensures s != "" && !IsSpace(s[|s| - 1]) ==> out == s
  {
    if s != "" && IsSpace(s[|s| - 1]) then StripRight(s[..|s| - 1]) else s
  }

  function Strip(s: string): (out: string)
    ensures |out| <= |s| && (out == s <==> !PaddedLeft(s) && !PaddedRight(s))
    ensures !PaddedLeft(out) && !PaddedRight(out)
    ensures PaddedLeft(s) || PaddedRight(s) ==> |out| < |s|
    ensures !PaddedLeft(s) ==> out == s[..|out|]
    ensures forall c :: c in out ==> c in s
  {
    StripRight(StripLeft(s))
  }

  predicate PaddedLeft(s: string) {
    s != "" && IsSpace(s[0])
  }

  predicate PaddedRight(s: string) {
    s != "" && IsSpace(s[|s| - 1])
  }

  function TrimLeft(s: string): (out: string)
    ensures |out| <= |s| && out == s[|s| - |out|..]
    ensures out != "" ==> out[0] != '0'
    ensures (s == "" || s[0] != '0') ==> out == s
  {
    if s != "" && s[0] == '0' then TrimLeft(s[1..]) else s
  }

  function TrimRight(s: string): (out: string)
    ensures |out| <= |s| && out == s[..|out|]
    ensures out != "" ==> out[|out| - 1] != '0'
    ensures (s == "" || s[|s| - 1] != '0') ==> out == s
  {
    if s != "" && s[|s| - 1] == '0' then TrimRight(s[..|s| - 1]) else s
  }

  /** Where the first dot is, or the length. */
  function DotAt(s: string): (k: nat)
    ensures k <= |s| && (forall i :: 0 <= i < k ==> s[i] != '.')
    ensures k < |s| ==> s[k] == '.'
    ensures k < |s| <==> '.' in s
  {
    if s == "" || s[0] == '.' then 0 else 1 + DotAt(s[1..])
  }

  lemma DotIsThere(whole: string, rest: string)
    requires '.' !in whole && (rest == "" || rest[0] == '.')
    ensures DotAt(whole + rest) == |whole|
  {
    var s := whole + rest;
    var k := DotAt(s);
    assert forall i :: 0 <= i < |whole| ==> s[i] == whole[i] && s[i] in whole;
    assert rest != "" ==> s[|whole|] == '.';
  }

  /** Trailing fractional zeros go, and the dot with them if nothing is left after it. */
  function Shortened(text: string): string {
    if '.' in text then
      var fraction := TrimRight(text[DotAt(text) + 1..]);
      if fraction != "" then text[..DotAt(text)] + "." + fraction else text[..DotAt(text)]
    else text
  }

  /** Leading zeros go, but for one that stands alone. */
  function WithoutLeadingZeros(text: string): string {
    var whole := TrimLeft(text[..DotAt(text)]);
    (if whole != "" then whole else "0") + (if DotAt(text) < |text| then "." + text[DotAt(text) + 1..] else "")
  }

  /** The canonical form as the program computes it: commas, padding, trailing and leading zeros. */
  function Normalise(value: string): string {
    WithoutLeadingZeros(Shortened(Strip(RemoveCommas(value))))
  }

  // ----- what the canonical form is

  function WholePart(text: string): string {
    TrimLeft(text[..DotAt(text)])
  }

  function FractionPart(text: string): string {
    if DotAt(text) < |text| then TrimRight(text[DotAt(text) + 1..]) else ""
  }

  function Canonical(whole: string, fraction: string): string {
    (if whole != "" then whole else "0") + (if fraction != "" then "." + fraction else "")
  }

  function Dotted(fraction: string): string {
    if fraction != "" then "." + fraction else ""
  }

  lemma ShortenedIs(text: string)
    ensures Shortened(text) == text[..DotAt(text)] + Dotted(FractionPart(text))
  {
    hide DotAt, TrimRight;
    var k := DotAt(text);
    if k < |text| && FractionPart(text) != "" {
      assert text[..k] + "." + FractionPart(text) == text[..k] + ("." + FractionPart(text));
    } else {
      assert text[..k] + "" == text[..k];
      assert k == |text| ==> text[..k] == text;
    }
  }

  lemma LeadingIs(whole: string, fraction: string)
    requires '.' !in whole
    ensures WithoutLeadingZeros(whole + Dotted(fraction)) == Canonical(TrimLeft(whole), fraction)
  {
    hide DotAt, TrimLeft;
    var text := whole + Dotted(fraction);
    DotIsThere(whole, Dotted(fraction));
    assert text[..|whole|] == whole;
    assert fraction != "" ==> text[|whole| + 1..] == fraction;
  }

  lemma NormalForm(value: string)
    ensures var text := Strip(RemoveCommas(value));
            Normalise(value) == Canonical(WholePart(text), FractionPart(text))
  {
    hide RemoveCommas, Strip, TrimLeft, TrimRight, DotAt, Shortened, WithoutLeadingZeros, Canonical, FractionPart;
    var text := Strip(RemoveCommas(value));
    ShortenedIs(text);
    assert '.' !in text[..DotAt(text)];
    LeadingIs(text[..DotAt(text)], FractionPart(text));
  }

  lemma CanonicalShape(whole: string, fraction: string)
    requires '.' !in whole
    ensures var r := Canonical(whole, fraction);
            var w := if whole != "" then whole else "0";
            && DotAt(r) == |w| && r[..|w|] == w
            && if fraction != "" then |w| < |r| && r[|w| + 1..] == fraction else |w| == |r|
  {
    var w := if whole != "" then whole else "0";
    var rest := if fraction != "" then "." + fraction else "";
    var r := w + rest;
    DotIsThere(w, rest);
    assert r == Canonical(whole, fraction);
  }

  lemma CanonicalParts(whole: string, fraction: string)
    requires '.' !in whole && TrimLeft(whole) == whole && TrimRight(fraction) == fraction
    ensures WholePart(Canonical(whole, fraction)) == whole && FractionPart(Canonical(whole, fraction)) == fraction
  {
    hide DotAt, Canonical, TrimRight;
    CanonicalShape(whole, fraction);
    assert TrimLeft("0") == "";
  }

  lemma TrimmedTwice(s: string)
    ensures TrimLeft(TrimLeft(s)) == TrimLeft(s) && TrimRight(TrimRight(s)) == TrimRight(s)
  {
  }

  lemma PartsAreTrimmed(text: string)
    ensures '.' !in WholePart(text)
    ensures TrimLeft(WholePart(text)) == WholePart(text)
    ensures TrimRight(FractionPart(text)) == FractionPart(text)
  {
    var whole := text[..DotAt(text)];
    assert '.' !in whole;
    TrimmedTwice(whole);
    if DotAt(text) < |text| {
      TrimmedTwice(text[DotAt(text) + 1..]);
    }
    assert forall c :: c in TrimLeft(whole) ==> c in whole;
  }

  // ----- idempotence, exactly

  predicate PartsPadded(text: string) {
    var whole, fraction := WholePart(text), FractionPart(text);
    || PaddedLeft(whole)
    || if fraction != "" then PaddedRight(fraction) else PaddedRight(whole)
  }

  lemma CanonicalPadding(text: string)
    ensures var r := Canonical(WholePart(text), FractionPart(text));
            PaddedLeft(r) || PaddedRight(r) <==> PartsPadded(text)
  {
    hide WholePart, FractionPart;
    var whole, fraction := WholePart(text), FractionPart(text);
    var w := if whole != "" then whole else "0";
    var r := Canonical(whole, fraction);
    assert r[0] == w[0];
    if fraction != "" {
      assert r[|r| - 1] == fraction[|fraction| - 1];
    }
  }

  lemma {:induction false} NoCommas(s: string)
    requires ',' !in s
    ensures RemoveCommas(s) == s
  {
    if s != "" {
      NoCommas(s[1..]);
    }
  }

  lemma TrimKeeps(s: string)
    ensures forall c :: c in TrimLeft(s) || c in TrimRight(s) ==> c in s
  {
  }

  lemma NormaliseHasNoCommas(value: string)
    ensures ',' !in Normalise(value)
  {
    hide Normalise, Strip, RemoveCommas, TrimLeft, TrimRight, DotAt;
    NormalForm(value);
    var text := Strip(RemoveCommas(value));
    var k := DotAt(text);
    assert ',' !in text;
    TrimKeeps(text[..k]);
    assert ',' !in WholePart(text);
    if k < |text| {
      TrimKeeps(text[k + 1..]);
    }
  }

  predicate AllZeros(s: string) {
    forall i :: 0 <= i < |s| ==> s[i] == '0'
  }

  /**
   * A white-space character of the text that only removed characters cover: zeros
   * before it; or zeros after it, past the first dot; or the dot right after it, followed by zeros.
   */
  predicate Uncovered(text: string, j: nat)
    requires j < |text|
  {
    var dot := DotAt(text);
    && IsSpace(text[j])
    && (|| AllZeros(text[..j])
        || (dot < j && AllZeros(text[j + 1..]))
        || (j + 1 == dot && dot < |text| && AllZeros(text[dot + 1..])))
  }

  lemma ZerosSplit(a: string, b: string)
    ensures AllZeros(a + b) <==> AllZeros(a) && AllZeros(b)
  {
    assert forall i :: 0 <= i < |a| ==> (a + b)[i] == a[i];
    assert forall i :: 0 <= i < |b| ==> (a + b)[|a| + i] == b[i];
  }

  lemma {:induction false} TrimLeftStops(s: string, j: nat)
    requires j < |s| && AllZeros(s[..j]) && s[j] != '0'
    ensures TrimLeft(s) == s[j..]
  {
    if j > 0 {
      assert s[..j][0] == '0';
      assert s[..j] == s[..1] + s[1..][..j - 1];
      ZerosSplit(s[..1], s[1..][..j - 1]);
      hide AllZeros;
      TrimLeftStops(s[1..], j - 1);
      assert s[1..][j - 1..] == s[j..];
    }
  }

  lemma {:induction false} TrimRightStops(s: string, j: nat)
    requires j < |s| && AllZeros(s[j + 1..]) && s[j] != '0'
    ensures TrimRight(s) == s[..j + 1]
  {
    var n := |s| - 1;
    if j < n {
      assert s[j + 1..][n - j - 1] == '0';
      assert s[j + 1..] == s[..n][j + 1..] + [s[n]];
      ZerosSplit(s[..n][j + 1..], [s[n]]);
      hide AllZeros;
      TrimRightStops(s[..n], j);
      assert s[..n][..j + 1] == s[..j + 1];
    } else {
      assert s[..j + 1] == s;
    }
  }

  lemma {:induction false} ZerosBefore(s: string, i: nat)
    requires i < |s| - |TrimLeft(s)|
    ensures s[i] == '0'
  {
    if i > 0 {
      ZerosBefore(s[1..], i - 1);
    }
  }

  lemma {:induction false} ZerosAfter(s: string, i: nat)
    requires |TrimRight(s)| <= i < |s|
    ensures s[i] == '0'
  {
    if i < |s| - 1 {
      ZerosAfter(s[..|s| - 1], i);
    }
  }

  lemma TrimmedLeft(s: string)
    ensures AllZeros(s[..|s| - |TrimLeft(s)|])
    ensures TrimLeft(s) == "" <==> AllZeros(s)
  {
    hide TrimLeft;
    var k := |s| - |TrimLeft(s)|;
    forall i | 0 <= i < k
      ensures s[i] == '0'
    {
      ZerosBefore(s, i);
    }
    assert k < |s| ==> s[k] == TrimLeft(s)[0];
  }

  lemma TrimmedRight(s: string)
    ensures AllZeros(s[|TrimRight(s)|..])
    ensures TrimRight(s) == "" <==> AllZeros(s)
  {
    hide TrimRight;
    var k := |TrimRight(s)|;
    forall i | k <= i < |s|
      ensures s[i] == '0'
    {
      ZerosAfter(s, i);
    }
    assert k > 0 ==> s[k - 1] == TrimRight(s)[k - 1];
  }

  lemma SpaceIsNeither(c: char)
    ensures IsSpace(c) ==> c != '0' && c != '.'
  {
  }

  lemma ZerosEndBeforeDot(text: string, j: nat)
    requires j < |text|
    ensures AllZeros(text[..j]) ==> j <= DotAt(text)
  {
    assert forall i :: 0 <= i < j ==> text[..j][i] == text[i];
  }

  /** The parts end up padded exactly when some white space of the text is uncovered. */
  lemma PaddedIsUncovered(text: string)
    requires !PaddedRight(text)
    ensures PartsPadded(text) <==> exists j :: 0 <= j < |text| && Uncovered(text, j)
  {
    hide PartsPadded, Uncovered, PaddedRight;
    if PartsPadded(text) {
      var j := FindUncovered(text);
    }
    forall j | 0 <= j < |text| && Uncovered(text, j)
      ensures PartsPadded(text)
    {
      UncoveredPads(text, j);
    }
  }

  lemma FindUncovered(text: string) returns (j: nat)
    requires PartsPadded(text) && !PaddedRight(text)
    ensures j < |text| && Uncovered(text, j)
  {
    hide TrimLeft, TrimRight, DotAt, AllZeros, IsSpace;
    var dot := DotAt(text);
    var whole := text[..dot];
    TrimmedLeft(whole);
    if PaddedLeft(TrimLeft(whole)) {
      j := |whole| - |TrimLeft(whole)|;
      assert TrimLeft(whole)[0] == whole[j] == text[j];
      assert text[..j] == whole[..j];
    } else {
      WholeEndsTheText(text);
      j := FindInTail(text);
    }
  }

  /** Without a dot, the whole part ends where the text ends. */
  lemma WholeEndsTheText(text: string)
    ensures DotAt(text) == |text| && !PaddedRight(text) ==> !PaddedRight(WholePart(text))
  {
    hide DotAt, IsSpace;
    var kept := TrimLeft(text);
    assert kept != "" ==> kept[|kept| - 1] == text[|text| - 1];
    assert text[..|text|] == text;
  }

  lemma FindInTail(text: string) returns (j: nat)
    requires DotAt(text) < |text|
    requires if FractionPart(text) != "" then PaddedRight(FractionPart(text)) else PaddedRight(WholePart(text))
    ensures j < |text| && Uncovered(text, j)
  {
    hide TrimLeft, TrimRight, DotAt, AllZeros, IsSpace;
    var dot := DotAt(text);
    var whole, tail := text[..dot], text[dot + 1..];
    TrimmedRight(tail);
    if TrimRight(tail) != "" {
      var n := |TrimRight(tail)|;
      j := dot + n;
      assert TrimRight(tail)[n - 1] == tail[n - 1] == text[j];
      assert text[j + 1..] == tail[n..];
    } else {
      var kept := TrimLeft(whole);
      assert kept[|kept| - 1] == whole[|whole| - 1] == text[dot - 1];
      j := dot - 1;
    }
  }

  lemma UncoveredPads(text: string, j: nat)
    requires j < |text| && Uncovered(text, j) && !PaddedRight(text)
    ensures PartsPadded(text)
  {
    hide TrimLeft, TrimRight, DotAt, AllZeros, IsSpace;
    var dot := DotAt(text);
    var whole := text[..dot];
    SpaceIsNeither(text[j]);
    if AllZeros(text[..j]) {
      ZerosEndBeforeDot(text, j);
      assert whole[..j] == text[..j] && whole[j] == text[j];
      TrimLeftStops(whole, j);
    } else {
      UncoveredRight(text, j);
    }
  }

  lemma UncoveredRight(text: string, j: nat)
    requires j < |text| && Uncovered(text, j) && !AllZeros(text[..j])
    ensures PartsPadded(text)
  {
    hide TrimLeft, TrimRight, DotAt, AllZeros, IsSpace;
    SpaceIsNeither(text[j]);
    if DotAt(text) < j {
      UncoveredFraction(text, j);
    } else {
      UncoveredWhole(text, j);
    }
  }

  /** Only zeros follow the white space in the fraction. */
  lemma UncoveredFraction(text: string, j: nat)
    requires DotAt(text) < j < |text| && IsSpace(text[j]) && text[j] != '0' && AllZeros(text[j + 1..])
    ensures PartsPadded(text)
  {
    hide TrimLeft, TrimRight, DotAt, AllZeros, IsSpace;
    var dot := DotAt(text);
    var tail := text[dot + 1..];
    var i := j - dot - 1;
    assert tail[i] == text[j] && tail[i + 1..] == text[j + 1..];
    TrimRightStops(tail, i);
    assert TrimRight(tail)[i] == text[j];
  }

  /** The white space ends a whole part that is more than zeros, and the fraction is nothing but zeros. */
  lemma UncoveredWhole(text: string, j: nat)
    requires j + 1 == DotAt(text) < |text| && IsSpace(text[j]) && AllZeros(text[DotAt(text) + 1..]) && !AllZeros(text[..j])
    ensures PartsPadded(text)
  {
    hide TrimLeft, TrimRight, DotAt, AllZeros, IsSpace;
    var whole := text[..DotAt(text)];
    TrimmedRight(text[DotAt(text) + 1..]);
    TrimmedLeft(whole);
    assert whole == text[..j] + [text[j]];
    ZerosSplit(text[..j], [text[j]]);
    var kept := TrimLeft(whole);
    assert kept == whole[|whole| - |kept|..] && kept != "";
    assert kept[|kept| - 1] == whole[j];
  }

  /**
   * A second pass over the canonical form changes nothing, exactly when the
   * text, its commas and outer white space gone, has no white space that the
   * first pass uncovers.
   */
  lemma IdempotentUnlessUncovered(value: string)
    ensures var text := Strip(RemoveCommas(value));
            Normalise(Normalise(value)) == Normalise(value) <==> forall j :: 0 <= j < |text| ==> !Uncovered(text, j)
  {
    hide Normalise, Strip, RemoveCommas, PartsPadded, Uncovered;
    var text := Strip(RemoveCommas(value));
    IdempotentUnlessPadded(value);
    PaddedIsUncovered(text);
  }

  lemma IdempotentUnlessPadded(value: string)
    ensures Normalise(Normalise(value)) == Normalise(value) <==> !PartsPadded(Strip(RemoveCommas(value)))
  {
    var text := Strip(RemoveCommas(value));
    var r := Normalise(value);
    NormalForm(value);
    NormalForm(r);
    NormaliseHasNoCommas(value);
    NoCommas(r);
    PartsAreTrimmed(text);
    CanonicalPadding(text);
    CanonicalParts(WholePart(text), FractionPart(text));
    if PartsPadded(text) {
      StrippedDiffers(r);
    }
  }

  lemma CanonicalStart(t: string)
    ensures var r := Canonical(WholePart(t), FractionPart(t)); r != "" && r[0] != '.'
  {
    PartsAreTrimmed(t);
    hide WholePart, FractionPart;
  }

  /** Stripping a padded canonical form and normalising cannot give it back. */
  lemma StrippedDiffers(r: string)
    requires PaddedLeft(r) || PaddedRight(r)
    requires r == Canonical(WholePart(r), FractionPart(r)) && ',' !in r
    ensures Canonical(WholePart(Strip(r)), FractionPart(Strip(r))) != r
  {
    hide Strip, Canonical, WholePart, FractionPart;
    var t := Strip(r);
    assert |t| < |r|;
    CanonicalIsNoLonger(t);
    CanonicalStart(r);
    if t == "" {
      EmptyText(t);
    }
    assert !IsSpace('0');
    if t != "" && t[0] == '.' {
      DottedText(t);
    }
    assert !PaddedLeft(r) ==> t == r[..|t|];
  }

  lemma EmptyText(t: string)
    requires t == ""
    ensures Canonical(WholePart(t), FractionPart(t)) == "0"
  {
    hide TrimRight;
    var whole := t[..DotAt(t)];
    assert whole == "";
    assert TrimLeft(whole) == whole;
  }

  lemma DottedText(t: string)
    requires t != "" && t[0] == '.'
    ensures var c := Canonical(WholePart(t), FractionPart(t)); c != "" && c[0] == '0'
  {
    hide TrimRight, FractionPart;
    assert DotAt(t) == 0 && t[..0] == "";
    assert TrimLeft("") == "";
  }

  lemma CanonicalIsNoLonger(t: string)
    ensures t != "" && t[0] != '.' ==> |Canonical(WholePart(t), FractionPart(t))| <= |t|
  {
    hide TrimLeft, TrimRight;
  }

  lemma OneLeadingZero(rest: string)
    requires rest != "" && rest[0] != '0'
    ensures TrimLeft(['0'] + rest) == rest
  {
    assert (['0'] + rest)[1..] == rest;
  }

  /** Inner white space does break idempotence. */
  lemma TwoPassesDiffer()
    ensures Normalise(Normalise("0 1")) != Normalise("0 1")
  {
    hide Normalise, RemoveCommas, Strip, DotAt, TrimLeft, TrimRight;
    var text := "0 1";
    NoCommas(text);
    assert Strip(text) == text;
    assert '.' !in text && text[..3] == text;
    assert TrimLeft(text) == " 1" by {
      OneLeadingZero(" 1");
      assert ['0'] + " 1" == text;
    }
    IdempotentUnlessPadded(text);
  }

  // ----- numerals and their values

  /** What the numeral pattern matches in full. */
  predicate Numeral(s: string) {
    var k := DotAt(s);
    && s != "" && IsDigit(s[0])
    && (forall i :: 0 <= i < k ==> IsDigit(s[i]) || s[i] == ',')
    && (k < |s| ==> k + 1 < |s| && AllDigits(s[k + 1..]))
  }

  function DigitValue(c: char): (n: nat)
    requires IsDigit(c)
    ensures n <= 9 && (n == 0 <==> c == '0')
  {
    c as int - '0' as int
  }

  function WholeValue(digits: string): nat
    requires AllDigits(digits)
  {
    if digits == "" then 0 else 10 * WholeValue(digits[..|digits| - 1]) + DigitValue(digits[|digits| - 1])
  }

  function FractionValue(digits: string): (v: real)
    requires AllDigits(digits)
    ensures 0.0 <= v < 1.0
  {
    if digits == "" then 0.0 else (DigitValue(digits[0]) as real + FractionValue(digits[1..])) / 10.0
  }

  function WholeDigits(s: string): (digits: string)
    requires Numeral(s)
    ensures AllDigits(digits) && digits != ""
  {
    var whole := s[..DotAt(s)];
    assert whole[0] in RemoveCommas(whole);
    assert forall i :: 0 <= i < |RemoveCommas(whole)| ==> RemoveCommas(whole)[i] in RemoveCommas(whole);
    RemoveCommas(whole)
  }

  function FractionDigits(s: string): (digits: string)
    requires Numeral(s)
    ensures AllDigits(digits)
  {
    if DotAt(s) < |s| then s[DotAt(s) + 1..] else ""
  }

  /** The number a numeral denotes. */
  function Value(s: string): real
    requires Numeral(s)
  {
    WholeValue(WholeDigits(s)) as real + FractionValue(FractionDigits(s))
  }

  lemma CommasCons(h: char, rest: string)
    ensures RemoveCommas([h] + rest) == (if h == ',' then "" else [h]) + RemoveCommas(rest)
  {
    assert ([h] + rest)[1..] == rest;
  }

  lemma {:induction false} CommasApart(a: string, b: string)
    ensures RemoveCommas(a + b) == RemoveCommas(a) + RemoveCommas(b)
  {
    hide RemoveCommas;
    if a == "" {
      assert a + b == b;
      NoCommas(a);
    } else {
      var h, t := a[0], a[1..];
      CommasApart(t, b);
      CommasCons(h, t + b);
      CommasCons(h, t);
      assert a == [h] + t && a + b == [h] + (t + b);
    }
  }

  function Rest(s: string): string
    requires Numeral(s)
  {
    if DotAt(s) < |s| then "." + FractionDigits(s) else ""
  }

  lemma NumeralSplits(s: string)
    requires Numeral(s)
    ensures s == s[..DotAt(s)] + Rest(s) && ',' !in Rest(s)
    ensures Rest(s) != "" ==> IsDigit(Rest(s)[|Rest(s)| - 1])
  {
    hide DotAt;
    var k := DotAt(s);
    if k < |s| {
      AllDigitsNoComma(FractionDigits(s));
      hide AllDigits;
      RestIs(s);
    }
  }

  lemma RestIs(s: string)
    requires Numeral(s) && DotAt(s) < |s|
    ensures Rest(s) == s[DotAt(s)..] && s == s[..DotAt(s)] + Rest(s)
  {
    hide DotAt, AllDigits, Numeral;
    CutAtDot(s, DotAt(s));
  }

  lemma CutAtDot(s: string, k: nat)
    requires k < |s| && s[k] == '.'
    ensures "." + s[k + 1..] == s[k..] && s == s[..k] + s[k..]
  {
  }

  lemma AllDigitsNoComma(s: string)
    requires AllDigits(s) && s != ""
    ensures ',' !in s && IsDigit(s[|s| - 1])
  {
  }

  lemma WholeIs(s: string)
    requires Numeral(s)
    ensures WholeDigits(s) == RemoveCommas(s[..DotAt(s)])
  {
  }

  /** Removing commas and padding from a numeral leaves its digits around its dot. */
  lemma NumeralText(s: string)
    requires Numeral(s)
    ensures Strip(RemoveCommas(s)) == WholeDigits(s) + Rest(s)
  {
    hide Strip, Numeral, FractionDigits, IsDigit, WholeDigits, Rest, AllDigits, RemoveCommas, DotAt;
    NumeralSplits(s);
    WholeIs(s);
    CommasApart(s[..DotAt(s)], Rest(s));
    NoCommas(Rest(s));
    Unpadded(WholeDigits(s), Rest(s));
  }

  /** A numeral's canonical form is made of its own digits. */
  lemma NumeralParts(s: string)
    requires Numeral(s)
    ensures var text := Strip(RemoveCommas(s));
            WholePart(text) == TrimLeft(WholeDigits(s)) && FractionPart(text) == TrimRight(FractionDigits(s))
  {
    hide TrimLeft, TrimRight, RemoveCommas, Strip, IsSpace, Numeral, WholeDigits, DotAt;
    NumeralText(s);
    var whole, fraction := WholeDigits(s), FractionDigits(s);
    var rest := Rest(s);
    var text := whole + rest;
    assert '.' !in whole;
    DotIsThere(whole, rest);
    assert text[..|whole|] == whole;
    if DotAt(s) < |s| {
      assert text[|whole| + 1..] == fraction;
    } else {
      TrimEmpty();
    }
  }

  lemma TrimEmpty()
    ensures TrimRight("") == "" && TrimLeft("") == ""
  {
  }

  /** Digits need no stripping. */
  lemma Unpadded(whole: string, rest: string)
    requires AllDigits(whole) && whole != ""
    requires rest != "" ==> IsDigit(rest[|rest| - 1])
    ensures Strip(whole + rest) == whole + rest
  {
    hide Strip, StripLeft, StripRight;
    var text := whole + rest;
    assert text[|text| - 1] == if rest == "" then whole[|whole| - 1] else rest[|rest| - 1];
  }

  lemma {:induction false} TrimLeftValue(digits: string)
    requires AllDigits(digits)
    ensures AllDigits(TrimLeft(digits)) && WholeValue(TrimLeft(digits)) == WholeValue(digits)
  {
    if digits != "" && digits[0] == '0' {
      TrimLeftValue(digits[1..]);
      LeadingZero(digits);
    }
  }

  lemma {:induction false} LeadingZero(digits: string)
    requires AllDigits(digits) && digits != "" && digits[0] == '0'
    ensures WholeValue(digits[1..]) == WholeValue(digits)
  {
    var n := |digits| - 1;
    if n > 0 {
      LeadingZero(digits[..n]);
      assert digits[1..][..n - 1] == digits[..n][1..];
    } else {
      assert digits[1..] == "" && digits[..0] == "";
    }
  }

  lemma {:induction false} TrimRightValue(digits: string)
    requires AllDigits(digits)
    ensures AllDigits(TrimRight(digits)) && FractionValue(TrimRight(digits)) == FractionValue(digits)
  {
    if digits != "" && digits[|digits| - 1] == '0' {
      TrimRightValue(digits[..|digits| - 1]);
      TrailingZero(digits);
    }
  }

  lemma {:induction false} TrailingZero(digits: string)
    requires AllDigits(digits) && digits != "" && digits[|digits| - 1] == '0'
    ensures FractionValue(digits[..|digits| - 1]) == FractionValue(digits)
  {
    var n := |digits| - 1;
    if n > 0 {
      TrailingZero(digits[1..]);
      assert digits[1..][..n - 1] == digits[..n][1..];
    } else {
      assert digits[1..] == "" && digits[..0] == "";
    }
  }

  lemma SameTens(x: nat, d: nat, y: nat, e: nat)
    requires 10 * x + d == 10 * y + e && d <= 9 && e <= 9
    ensures x == y && d == e
  {
  }

  /** Digits without a leading zero are determined by their value. */
  lemma {:induction false} WholeInjective(a: string, b: string)
    requires AllDigits(a) && AllDigits(b) && WholeValue(a) == WholeValue(b)
    requires (a != "" ==> a[0] != '0') && (b != "" ==> b[0] != '0')
    ensures a == b
  {
    NoLeadingZeroPositive(a);
    NoLeadingZeroPositive(b);
    if a != "" && b != "" {
      var m, n := |a| - 1, |b| - 1;
      SameTens(WholeValue(a[..m]), DigitValue(a[m]), WholeValue(b[..n]), DigitValue(b[n]));
      WholeInjective(a[..m], b[..n]);
      assert a == a[..m] + [a[m]] && b == b[..n] + [b[n]];
    }
  }

  lemma {:induction false} NoLeadingZeroPositive(a: string)
    requires AllDigits(a) && (a != "" ==> a[0] != '0')
    ensures a != "" ==> WholeValue(a) > 0
  {
    if |a| > 1 {
      NoLeadingZeroPositive(a[..|a| - 1]);
    }
  }

  /** A fraction without a trailing zero is determined by its value. */
  lemma {:induction false} FractionInjective(a: string, b: string)
    requires AllDigits(a) && AllDigits(b) && FractionValue(a) == FractionValue(b)
    requires (a != "" ==> a[|a| - 1] != '0') && (b != "" ==> b[|b| - 1] != '0')
    ensures a == b
  {
    NoTrailingZeroPositive(a);
    NoTrailingZeroPositive(b);
    if a != "" && b != "" {
      var x, y := DigitValue(a[0]), DigitValue(b[0]);
      assert x as real + FractionValue(a[1..]) == y as real + FractionValue(b[1..]);
      SameFloor(x, FractionValue(a[1..]), y, FractionValue(b[1..]));
      FractionInjective(a[1..], b[1..]);
      assert a == [a[0]] + a[1..] && b == [b[0]] + b[1..];
    }
  }

  lemma SameFloor(x: nat, f: real, y: nat, g: real)
    requires 0.0 <= f < 1.0 && 0.0 <= g < 1.0 && x as real + f == y as real + g
    ensures x == y && f == g
  {
    assert (x as real + f).Floor == x;
    assert (y as real + g).Floor == y;
  }

  lemma {:induction false} NoTrailingZeroPositive(a: string)
    requires AllDigits(a) && (a != "" ==> a[|a| - 1] != '0')
    ensures a != "" ==> FractionValue(a) > 0.0
  {
    if |a| > 1 {
      NoTrailingZeroPositive(a[1..]);
    }
  }

  /** Normalising a numeral gives a numeral for the same number, already canonical. */
  lemma NormaliseKeepsValue(s: string)
    requires Numeral(s)
    ensures Numeral(Normalise(s)) && Value(Normalise(s)) == Value(s)
    ensures Normalise(Normalise(s)) == Normalise(s)
  {
    hide TrimLeft, TrimRight, RemoveCommas, Strip, Normalise, DotAt, WholeValue, FractionValue, Canonical, Numeral;
    NormalForm(s);
    NumeralParts(s);
    var whole, fraction := TrimLeft(WholeDigits(s)), TrimRight(FractionDigits(s));
    TrimLeftValue(WholeDigits(s));
    TrimRightValue(FractionDigits(s));
    CanonicalNumeral(whole, fraction);
    IdempotentUnlessPadded(s);
    DigitsUncoverNothing(whole, fraction);
  }

  lemma DigitsUncoverNothing(whole: string, fraction: string)
    requires AllDigits(whole) && AllDigits(fraction)
    ensures !PaddedLeft(whole) && !PaddedRight(whole) && !PaddedRight(fraction)
  {
  }

  /** Digits, and perhaps a dot and digits, are a numeral made of those digits. */
  lemma PlainNumeralParts(w: string, fraction: string)
    requires AllDigits(w) && w != "" && AllDigits(fraction)
    ensures var r := w + if fraction != "" then "." + fraction else "";
            Numeral(r) && WholeDigits(r) == w && FractionDigits(r) == fraction
  {
    hide RemoveCommas, DotAt;
    var rest := if fraction != "" then "." + fraction else "";
    var r := w + rest;
    assert '.' !in w && ',' !in w;
    DotIsThere(w, rest);
    assert r[..|w|] == w && r[0] == w[0];
    assert forall i :: 0 <= i < |w| ==> r[i] == w[i];
    NoCommas(w);
    assert fraction != "" ==> r[|w| + 1..] == fraction;
  }

  lemma CanonicalNumeral(whole: string, fraction: string)
    requires AllDigits(whole) && AllDigits(fraction)
    ensures var r := Canonical(whole, fraction);
            Numeral(r) && Value(r) == WholeValue(whole) as real + FractionValue(fraction)
  {
    hide Numeral, WholeDigits, FractionDigits, FractionValue;
    PlainNumeralParts(if whole != "" then whole else "0", fraction);
    assert WholeValue("0") == 0 by {
      assert "0"[..0] == "";
    }
  }

  /** Two numerals normalise alike exactly when they denote the same number. */
  lemma NormaliseDecidesEquality(a: string, b: string)
    requires Numeral(a) && Numeral(b)
    ensures Normalise(a) == Normalise(b) <==> Value(a) == Value(b)
  {
    hide TrimLeft, TrimRight, RemoveCommas, Strip, Normalise, DotAt, WholeValue, FractionValue, Canonical, Numeral, WholeDigits, FractionDigits, WholePart, FractionPart;
    NormaliseKeepsValue(a);
    NormaliseKeepsValue(b);
    if Value(a) == Value(b) {
      NormalForm(a);
      NormalForm(b);
      NumeralParts(a);
      NumeralParts(b);
      TrimLeftValue(WholeDigits(a));
      TrimLeftValue(WholeDigits(b));
      TrimRightValue(FractionDigits(a));
      TrimRightValue(FractionDigits(b));
      SameFloor(WholeValue(WholeDigits(a)), FractionValue(FractionDigits(a)),
                WholeValue(WholeDigits(b)), FractionValue(FractionDigits(b)));
      WholeInjective(TrimLeft(WholeDigits(a)), TrimLeft(WholeDigits(b)));
      FractionInjective(TrimRight(FractionDigits(a)), TrimRight(FractionDigits(b)));
    }
  }
}
