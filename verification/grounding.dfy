/**
 * The grounding check on generated text (src/riskloom/explanations/sanitizer.py,
 * lines 94-121 and 145-197): every numeral in it, and every listed number word,
 * must render a supplied value.
 */
module Grounding {
  import opened Common
  import opened Numerals

  /**
   * What the library decides outside ASCII: the other decimal digits and word
   * characters, case folding, and the exact percentage of a string that is not a
   * plain decimal, if it reads as a decimal at all.
   */
  datatype Library = Library(digits: set<char>, letters: set<char>, fold: string -> string, percent: string -> Option<string>)

  ghost predicate Sane(u: Library) {
    && (forall c :: c in u.digits ==> c as int >= 128 && !IsSpace(c))
    && (forall c :: c in u.letters ==> c as int >= 128)
  }

  predicate AnyDigit(u: Library, c: char) {
    IsDigit(c) || c in u.digits
  }

  // ----- finding the numerals in a text

  /** How far digits, and commas if allowed, run from the start. */
  function Run(u: Library, s: string, commas: bool): (n: nat)
    ensures n <= |s|
    ensures forall i :: 0 <= i < n ==> AnyDigit(u, s[i]) || (commas && s[i] == ',')
    ensures n < |s| ==> !AnyDigit(u, s[n]) && (commas ==> s[n] != ',')
  {
    if s != "" && (AnyDigit(u, s[0]) || (commas && s[0] == ',')) then 1 + Run(u, s[1..], commas) else 0
  }

  /** The length of the match at a digit: the greedy run, and a fraction if digits follow the dot. */
  function MatchLength(u: Library, s: string): (n: nat)
    requires s != "" && AnyDigit(u, s[0])
    ensures 1 <= n <= |s|
  {
    var k := Run(u, s, true);
    if k + 1 < |s| && s[k] == '.' && AnyDigit(u, s[k + 1]) then k + 1 + Run(u, s[k + 1..], false) else k
  }

  /** All matches of the numeral pattern, left to right. */
  function Matches(u: Library, s: string): seq<string>
    decreases |s|
  {
    if s == "" then []
    else if AnyDigit(u, s[0]) then [s[..MatchLength(u, s)]] + Matches(u, s[MatchLength(u, s)..])
    else Matches(u, s[1..])
  }

  ghost predicate Foreign(u: Library, m: string) {
    exists i :: 0 <= i < |m| && m[i] in u.digits
  }

  lemma MatchIsNumeral(u: Library, s: string)
    requires s != "" && AnyDigit(u, s[0]) && Sane(u)
    ensures var m := s[..MatchLength(u, s)]; Numeral(m) <==> !Foreign(u, m)
  {
    var k, n := Run(u, s, true), MatchLength(u, s);
    var m := s[..n];
    assert forall i :: 0 <= i < k ==> m[i] == s[i] && m[i] != '.';
    assert m[..k] + m[k..] == m;
    assert '.' !in m[..k];
    DotIsThere(m[..k], m[k..]);
    assert k < n ==> m[k + 1..] == s[k + 1..][..n - k - 1];
    if Numeral(m) {
      NumeralIsAscii(m);
    }
    if !Foreign(u, m) {
      assert forall i :: 0 <= i < n && AnyDigit(u, m[i]) ==> IsDigit(m[i]);
      hide Foreign, DotAt, MatchLength;
      if k < n {
        TailDigits(m, k);
      }
    }
  }

  lemma TailDigits(m: string, k: nat)
    requires k < |m| && forall i :: k < i < |m| ==> IsDigit(m[i])
    ensures AllDigits(m[k + 1..])
  {
  }

  lemma NumeralIsAscii(m: string)
    requires Numeral(m)
    ensures forall i :: 0 <= i < |m| ==> (m[i] as int) < 128
  {
    var k := DotAt(m);
    forall i | k < i < |m|
      ensures IsDigit(m[i])
    {
      assert m[k + 1..][i - k - 1] == m[i];
    }
  }

  /** A match is a numeral, unless it holds a digit outside ASCII. */
  lemma {:induction false} MatchesAreNumerals(u: Library, s: string)
    requires Sane(u)
    ensures forall m :: m in Matches(u, s) ==> (Numeral(m) <==> !Foreign(u, m))
    decreases |s|
  {
    hide Numeral, Foreign, MatchLength;
    if s == "" {
    } else if AnyDigit(u, s[0]) {
      MatchIsNumeral(u, s);
      MatchesAreNumerals(u, s[MatchLength(u, s)..]);
    } else {
      MatchesAreNumerals(u, s[1..]);
    }
  }

  function DigitsIn(u: Library, s: string): string {
    if s == "" then "" else (if AnyDigit(u, s[0]) then [s[0]] else "") + DigitsIn(u, s[1..])
  }

  function Joined(parts: seq<string>): string {
    if parts == [] then "" else parts[0] + Joined(parts[1..])
  }

  lemma DigitsCons(u: Library, h: char, rest: string)
    ensures DigitsIn(u, [h] + rest) == (if AnyDigit(u, h) then [h] else "") + DigitsIn(u, rest)
  {
    assert ([h] + rest)[1..] == rest;
  }

  lemma {:induction false} DigitsApart(u: Library, a: string, b: string)
    ensures DigitsIn(u, a + b) == DigitsIn(u, a) + DigitsIn(u, b)
  {
    if a == "" {
      assert a + b == b;
    } else {
      hide DigitsIn;
      var h, t := a[0], a[1..];
      DigitsApart(u, t, b);
      DigitsCons(u, h, t + b);
      DigitsCons(u, h, t);
      assert a == [h] + t && a + b == [h] + (t + b);
    }
  }

  /** No digit of a text escapes, in ASCII or not: the matches hold all of them, in order. */
  lemma {:induction false} MatchesHoldEveryDigit(u: Library, s: string)
    ensures DigitsIn(u, Joined(Matches(u, s))) == DigitsIn(u, s)
    decreases |s|
  {
    hide MatchLength;
    if s == "" {
    } else if AnyDigit(u, s[0]) {
      var n := MatchLength(u, s);
      MatchesHoldEveryDigit(u, s[n..]);
      DigitsApart(u, s[..n], s[n..]);
      assert s[..n] + s[n..] == s;
      DigitsApart(u, s[..n], Joined(Matches(u, s[n..])));
      assert Matches(u, s)[1..] == Matches(u, s[n..]);
    } else {
      MatchesHoldEveryDigit(u, s[1..]);
    }
  }

  // ----- rendering integers, amounts, durations and ratios

  function Digit(n: nat): (c: char)
    requires n <= 9
    ensures IsDigit(c) && DigitValue(c) == n
  {
    ('0' as int + n) as char
  }

  /** Decimal digits without a leading zero. */
  function Text(n: nat): (s: string)
    ensures s != "" && AllDigits(s) && (s[0] == '0' ==> n == 0)
    ensures WholeValue(s) == n
  {
    if n < 10 then
      assert [Digit(n)][..0] == "";
      [Digit(n)]
    else
      var s := Text(n / 10) + [Digit(n % 10)];
      assert s[..|s| - 1] == Text(n / 10);
      s
  }

  /** An amount of subunits in major units, to as many places as it needs. */
  function MajorText(amount: nat): string {
    Text(amount / 100)
    + if amount % 100 == 0 then ""
      else if amount % 10 == 0 then "." + [Digit(amount / 10 % 10)]
      else "." + [Digit(amount / 10 % 10), Digit(amount % 10)]
  }

  lemma PlainText(n: nat, fraction: string)
    requires AllDigits(fraction)
    ensures var s := Text(n) + if fraction == "" then "" else "." + fraction;
            Numeral(s) && Value(s) == n as real + FractionValue(fraction)
  {
    hide Text, WholeValue, FractionValue, Numeral, WholeDigits, FractionDigits;
    PlainNumeralParts(Text(n), fraction);
  }

  lemma NoFraction()
    ensures FractionValue("") == 0.0
  {
  }

  lemma FewPlaces(a: char, b: char)
    requires IsDigit(a) && IsDigit(b)
    ensures FractionValue([a]) == DigitValue(a) as real / 10.0
    ensures FractionValue([a, b]) == (10 * DigitValue(a) + DigitValue(b)) as real / 100.0
  {
    assert [a][1..] == "" && [a, b][1..] == [b] && [b][1..] == "";
  }

  lemma Hundredths(amount: nat, q: nat, r: nat)
    requires amount == 100 * q + r
    ensures amount as real / 100.0 == q as real + r as real / 100.0
  {
  }

  lemma LastTwoDigits(amount: nat)
    ensures amount % 100 == 10 * (amount / 10 % 10) + amount % 10
  {
    var tens := amount / 10;
    Hundred(amount, tens / 10, tens % 10, amount % 10);
  }

  lemma Hundred(n: nat, q: nat, tens: nat, ones: nat)
    requires n == 100 * q + 10 * tens + ones && tens <= 9 && ones <= 9
    ensures n % 100 == 10 * tens + ones
  {
  }

  /** Dividing by a hundred loses nothing. */
  lemma MajorIsExact(amount: nat)
    ensures Numeral(MajorText(amount)) && Value(MajorText(amount)) == amount as real / 100.0
  {
    hide Text, Value, Numeral, FractionValue, DigitValue;
    var tens, ones := Digit(amount / 10 % 10), Digit(amount % 10);
    var fraction := if amount % 100 == 0 then "" else if amount % 10 == 0 then [tens] else [tens, ones];
    PlainText(amount / 100, fraction);
    FewPlaces(tens, ones);
    NoFraction();
    LastTwoDigits(amount);
    Hundredths(amount, amount / 100, amount % 100);
  }

  /** The components of a duration: seconds; minutes and seconds; hours and minutes. */
  function DurationValues(seconds: nat): seq<nat> {
    [seconds]
    + (if seconds >= 60 then [seconds / 60, seconds % 60] else [])
    + (if seconds >= 3600 then [seconds / 3600, seconds % 3600 / 60] else [])
  }

  /** Each component belongs to an exact rendering of the duration: m minutes s seconds, or h hours m minutes s seconds. */
  lemma DurationIsExact(seconds: nat)
    ensures var parts := DurationValues(seconds);
            && parts[0] == seconds
            && (|parts| == 3 || |parts| == 5 ==> parts[1] * 60 + parts[2] == seconds && parts[2] < 60)
            && (|parts| == 5 ==> parts[3] * 3600 + parts[4] * 60 + parts[2] == seconds && parts[4] < 60)
            && (seconds < 60 <==> |parts| == 1) && (seconds >= 3600 <==> |parts| == 5) && |parts| in {1, 3, 5}
  {
    assert seconds % 3600 % 60 == seconds % 60;
  }

  method DurationParts(seconds: nat) returns (parts: seq<string>)
    ensures |parts| == |DurationValues(seconds)|
    ensures forall i :: 0 <= i < |parts| ==> parts[i] == Text(DurationValues(seconds)[i])
  {
    hide Text;
    parts := [Text(seconds)];
    if seconds >= 60 {
      parts := parts + [Text(seconds / 60), Text(seconds % 60)];
    }
    if seconds >= 3600 {
      parts := parts + [Text(seconds / 3600), Text(seconds % 3600 / 60)];
    }
  }

  function Power(n: nat): (p: real)
    ensures p >= 1.0
  {
    if n == 0 then 1.0 else 10.0 * Power(n - 1)
  }

  /** Digits around a dot denote the digits without it, scaled down by the fraction's length. */
  lemma {:induction false} DotScales(a: string, b: string)
    requires AllDigits(a) && AllDigits(b)
    ensures AllDigits(a + b) && (WholeValue(a) as real + FractionValue(b)) * Power(|b|) == WholeValue(a + b) as real
    decreases |b|
  {
    hide WholeValue, FractionValue;
    if b == "" {
      assert a + b == a;
      NoFraction();
    } else {
      var d, rest := b[0], b[1..];
      var more := a + [d];
      OneMoreDigit(a, b);
      assert more + rest == a + b;
      DotScales(more, rest);
      TenTimes(WholeValue(a), DigitValue(d), FractionValue(rest), Power(|rest|), FractionValue(b));
    }
  }

  lemma OneMoreDigit(a: string, b: string)
    requires AllDigits(a) && AllDigits(b) && b != ""
    ensures AllDigits(a + [b[0]]) && WholeValue(a + [b[0]]) == 10 * WholeValue(a) + DigitValue(b[0])
    ensures FractionValue(b) * 10.0 == DigitValue(b[0]) as real + FractionValue(b[1..])
  {
    assert (a + [b[0]])[..|a|] == a;
  }

  lemma TenTimes(w: nat, d: nat, f: real, p: real, g: real)
    requires g * 10.0 == d as real + f
    ensures (w as real + g) * (10.0 * p) == ((10 * w + d) as real + f) * p
  {
    assert (10 * w + d) as real + f == (w as real + g) * 10.0;
  }

  /** Digits with a dot and at most 26 of them: what a hundredfold keeps exact in 28 digits. */
  predicate PlainDecimal(s: string) {
    Numeral(s) && ',' !in s && |WholeDigits(s)| + |FractionDigits(s)| <= 26
  }

  function Zeros(n: nat): (s: string)
    ensures |s| == n && AllDigits(s) && forall i :: 0 <= i < n ==> s[i] == '0'
  {
    seq(n, i => '0')
  }

  lemma {:induction false} ZerosDoNothing(n: nat, digits: string)
    requires AllDigits(digits)
    ensures AllDigits(Zeros(n) + digits) && WholeValue(Zeros(n) + digits) == WholeValue(digits)
  {
    var s := Zeros(n) + digits;
    if n == 0 {
      assert s == digits;
    } else {
      ZerosDoNothing(n - 1, digits);
      assert s[1..] == Zeros(n - 1) + digits;
      LeadingZero(s);
    }
  }

  /** An integer's digits with a dot before the last `places` of them, padded to keep one digit before it. */
  function Placed(n: nat, places: nat): string {
    var digits := Text(n);
    var padded := if |digits| <= places then Zeros(places + 1 - |digits|) + digits else digits;
    padded[..|padded| - places] + if places == 0 then "" else "." + padded[|padded| - places..]
  }

  /** The digits that are placed around the dot. */
  lemma PlacedDigits(n: nat, places: nat) returns (padded: string)
    ensures AllDigits(padded) && WholeValue(padded) == n && |padded| == (if |Text(n)| <= places then places + 1 else |Text(n)|)
    ensures var whole, fraction := padded[..|padded| - places], padded[|padded| - places..];
            Placed(n, places) == whole + if fraction != "" then "." + fraction else ""
  {
    hide WholeValue, Text;
    var digits := Text(n);
    var pad := if |digits| <= places then places + 1 - |digits| else 0;
    ZerosDoNothing(pad, digits);
    padded := Zeros(pad) + digits;
    assert pad == 0 ==> padded == digits;
  }

  lemma PlacedValue(n: nat, places: nat)
    ensures Numeral(Placed(n, places)) && Value(Placed(n, places)) * Power(places) == n as real
    ensures ',' !in Placed(n, places)
  {
    hide Text, WholeValue, FractionValue, Numeral, WholeDigits, FractionDigits, Power, Placed, AllDigits;
    var padded := PlacedDigits(n, places);
    PlacedParts(padded, places);
    var whole, fraction := padded[..|padded| - places], padded[|padded| - places..];
    assert whole + fraction == padded;
    DotScales(whole, fraction);
  }

  /** Digits with a dot somewhere after the first are a numeral with those parts. */
  lemma PlacedParts(padded: string, places: nat)
    requires AllDigits(padded) && places < |padded|
    ensures var whole, fraction := padded[..|padded| - places], padded[|padded| - places..];
            var r := whole + if fraction != "" then "." + fraction else "";
            && AllDigits(whole) && AllDigits(fraction) && ',' !in r
            && Numeral(r) && WholeDigits(r) == whole && FractionDigits(r) == fraction
  {
    hide Numeral, WholeDigits, FractionDigits;
    var whole, fraction := padded[..|padded| - places], padded[|padded| - places..];
    PlainNumeralParts(whole, fraction);
    assert forall c :: c in whole || c in fraction ==> IsDigit(c);
  }

  /** A hundred times a plain decimal, in fixed-point notation with as many places as it had. */
  function PercentText(s: string): string
    requires PlainDecimal(s)
  {
    Placed(100 * WholeValue(WholeDigits(s) + FractionDigits(s)), |FractionDigits(s)|)
  }

  /** The percentage is exact. */
  lemma PercentIsExact(s: string)
    requires PlainDecimal(s)
    ensures Numeral(PercentText(s)) && Value(PercentText(s)) == 100.0 * Value(s)
  {
    hide Placed, WholeValue, FractionValue, Numeral, WholeDigits, FractionDigits, Power;
    var n := |FractionDigits(s)|;
    var c := WholeValue(WholeDigits(s) + FractionDigits(s));
    DotScales(WholeDigits(s), FractionDigits(s));
    PlacedValue(100 * c, n);
    SameScale(Value(PercentText(s)), 100.0 * Value(s), Power(n));
  }

  lemma SameScale(x: real, y: real, p: real)
    requires p >= 1.0 && x * p == y * p
    ensures x == y
  {
    assert (x - y) * p == 0.0;
  }

  // ----- the numerals a payload supplies

  datatype Aggregate = Aggregate(decisionCount: nat, deniedCount: nat, reviewCount: nat, spanSeconds: Option<nat>)

  /** The two ratios are strings; the schema bounds only their length. */
  datatype Payload = Payload(amountSubunits: nat, probability: string, threshold: string, context: seq<Aggregate>)

  function PercentOf(u: Library, s: string): Option<string> {
    if PlainDecimal(s) then Some(PercentText(s)) else u.percent(s)
  }

  predicate RendersRatio(u: Library, ratio: string, s: string) {
    s == ratio || PercentOf(u, ratio) == Some(s)
  }

  predicate Supplies(a: Aggregate, n: nat) {
    || n == a.decisionCount || n == a.deniedCount || n == a.reviewCount
    || (a.spanSeconds.Some? && n in DurationValues(a.spanSeconds.value))
  }

  predicate IsWhole(v: real, n: nat) {
    v == n as real
  }

  /** The renderings of the payload's own values, up to the given number of context rows. */
  ghost predicate Renders(u: Library, p: Payload, rows: nat, s: string) {
    || s == Text(p.amountSubunits) || s == MajorText(p.amountSubunits)
    || RendersRatio(u, p.probability, s) || RendersRatio(u, p.threshold, s)
    || exists i, n: nat :: 0 <= i < rows && i < |p.context| && Supplies(p.context[i], n) && s == Text(n)
  }

  ghost predicate Permits(u: Library, p: Payload, rows: nat, x: string) {
    exists s :: Renders(u, p, rows, s) && x == Normalise(s)
  }

  /** Add the counts and the duration of one context row. */
  method AddAggregate(a: Aggregate, allowed: set<string>) returns (more: set<string>)
    ensures forall x :: x in more <==> x in allowed || exists n: nat :: Supplies(a, n) && x == Normalise(Text(n))
  {
    hide Text, Normalise, DurationValues;
    more := allowed + {Normalise(Text(a.decisionCount)), Normalise(Text(a.deniedCount)), Normalise(Text(a.reviewCount))};
    if a.spanSeconds.Some? {
      var parts := DurationParts(a.spanSeconds.value);
      ghost var values := DurationValues(a.spanSeconds.value);
      ghost var before := more;
      for i := 0 to |parts|
        invariant forall x :: x in more <==> x in before || exists j :: 0 <= j < i && x == Normalise(Text(values[j]))
      {
        more := more + {Normalise(parts[i])};
      }
      assert forall j :: 0 <= j < |values| ==> values[j] in values && Supplies(a, values[j]);
    }
    assert Supplies(a, a.decisionCount) && Supplies(a, a.deniedCount) && Supplies(a, a.reviewCount);
  }

  /** Add a ratio as supplied, and its percentage unless it does not read as a decimal. */
  method AddRatio(u: Library, ratio: string, allowed: set<string>) returns (more: set<string>)
    ensures forall x :: x in more <==> x in allowed || exists s :: RendersRatio(u, ratio, s) && x == Normalise(s)
  {
    hide Normalise, PercentOf;
    more := allowed + {Normalise(ratio)};
    assert RendersRatio(u, ratio, ratio);
    var percent := PercentOf(u, ratio);
    if percent.Some? {
      more := more + {Normalise(percent.value)};
      assert RendersRatio(u, ratio, percent.value);
    }
  }

  method PermittedNumerals(u: Library, p: Payload) returns (allowed: set<string>)
    ensures forall x :: x in allowed <==> Permits(u, p, |p.context|, x)
  {
    hide Text, Normalise, MajorText, Supplies, RendersRatio;
    allowed := {Normalise(Text(p.amountSubunits)), Normalise(MajorText(p.amountSubunits))};
    allowed := AddRatio(u, p.probability, allowed);
    allowed := AddRatio(u, p.threshold, allowed);
    assert forall x :: x in allowed <==> Permits(u, p, 0, x) by {
      NoRows(u, p, allowed);
    }
    for i := 0 to |p.context|
      invariant forall x :: x in allowed <==> Permits(u, p, i, x)
    {
      allowed := AddAggregate(p.context[i], allowed);
      forall x
        ensures x in allowed <==> Permits(u, p, i + 1, x)
      {
        NextRow(u, p, i, x);
      }
    }
  }

  lemma NoRows(u: Library, p: Payload, allowed: set<string>)
    requires forall x :: x in allowed <==>
      || x == Normalise(Text(p.amountSubunits)) || x == Normalise(MajorText(p.amountSubunits))
      || (exists s :: RendersRatio(u, p.probability, s) && x == Normalise(s))
      || (exists s :: RendersRatio(u, p.threshold, s) && x == Normalise(s))
    ensures forall x :: x in allowed <==> Permits(u, p, 0, x)
  {
    hide Text, Normalise, MajorText, Supplies, RendersRatio;
    assert Renders(u, p, 0, Text(p.amountSubunits)) && Renders(u, p, 0, MajorText(p.amountSubunits));
    assert forall s :: RendersRatio(u, p.probability, s) || RendersRatio(u, p.threshold, s) ==> Renders(u, p, 0, s);
  }

  lemma NextRow(u: Library, p: Payload, i: nat, x: string)
    requires i < |p.context|
    ensures Permits(u, p, i + 1, x) <==>
            Permits(u, p, i, x) || exists n: nat :: Supplies(p.context[i], n) && x == Normalise(Text(n))
  {
    hide Text, Normalise, MajorText, Supplies, RendersRatio;
    if Permits(u, p, i + 1, x) {
      var s :| Renders(u, p, i + 1, s) && x == Normalise(s);
      assert Renders(u, p, i, s) || exists n: nat :: Supplies(p.context[i], n) && s == Text(n);
    }
    if n: nat :| Supplies(p.context[i], n) && x == Normalise(Text(n)) {
      assert Renders(u, p, i + 1, Text(n));
    }
    if Permits(u, p, i, x) {
      var s :| Renders(u, p, i, s) && x == Normalise(s);
      assert Renders(u, p, i + 1, s);
    }
  }

  // ----- what is supplied, as numbers

  /** The string, or what is left of it in canonical form, is a numeral for `v`. */
  ghost predicate Denotes(s: string, v: real) {
    Numeral(Normalise(s)) && Value(Normalise(s)) == v
  }

  ghost predicate SuppliesRatio(u: Library, ratio: string, v: real) {
    exists s :: RendersRatio(u, ratio, s) && Denotes(s, v)
  }

  /** The numbers a text about this payload may name. */
  ghost predicate Supplied(u: Library, p: Payload, v: real) {
    || v == p.amountSubunits as real || v == p.amountSubunits as real / 100.0
    || SuppliesRatio(u, p.probability, v) || SuppliesRatio(u, p.threshold, v)
    || exists i, n: nat :: 0 <= i < |p.context| && Supplies(p.context[i], n) && IsWhole(v, n)
  }

  lemma NumeralDenotes(s: string, v: real)
    requires Numeral(s)
    ensures Denotes(s, v) <==> v == Value(s)
  {
    hide Numeral, Value, Normalise;
    NormaliseKeepsValue(s);
  }

  lemma PlainIsNumeral(s: string)
    requires PlainDecimal(s)
    ensures Numeral(s)
  {
  }

  lemma PercentOfPlain(u: Library, s: string)
    requires PlainDecimal(s)
    ensures PercentOf(u, s) == Some(PercentText(s))
  {
    hide PercentText, Numeral, WholeDigits, FractionDigits;
  }

  /** A plain decimal supplies exactly its own value and a hundred times it. */
  lemma PlainRatioSupplies(u: Library, ratio: string, v: real)
    requires PlainDecimal(ratio)
    ensures SuppliesRatio(u, ratio, v) <==> v == Value(ratio) || v == 100.0 * Value(ratio)
  {
    hide Numeral, Value, PercentText, PercentOf, Denotes, PlainDecimal;
    PercentIsExact(ratio);
    PercentOfPlain(u, ratio);
    var percent := PercentText(ratio);
    assert Numeral(ratio) by {
      PlainIsNumeral(ratio);
    }
    NumeralDenotes(ratio, v);
    NumeralDenotes(percent, v);
    assert RendersRatio(u, ratio, ratio) && RendersRatio(u, ratio, percent);
  }

  /** A ledger column in fixed-point notation, as an explanation's input is built from it. */
  function LedgerText(units: nat): string {
    Placed(units, 18)
  }

  lemma PowerEighteen()
    ensures Power(18) == 1_000_000_000_000_000_000.0
  {
    assert Power(6) == 1_000_000.0;
    assert Power(12) == 1_000_000.0 * Power(6) by {
      assert Power(9) == 1_000.0 * Power(6);
      assert Power(12) == 1_000.0 * Power(9);
    }
    assert Power(15) == 1_000.0 * Power(12);
    assert Power(18) == 1_000.0 * Power(15);
  }

  /** Ratios that come from the ledger's columns are numerals for the column's value. */
  lemma LedgerTextIsExact(units: nat)
    ensures Numeral(LedgerText(units)) && Value(LedgerText(units)) == units as real / 1_000_000_000_000_000_000.0
    ensures ',' !in LedgerText(units)
  {
    hide Placed, Numeral, Value;
    PlacedValue(units, 18);
    PowerEighteen();
  }

  function Tens(k: nat): nat {
    if k == 0 then 1 else 10 * Tens(k - 1)
  }

  lemma {:induction false} TextLength(n: nat, k: nat)
    requires k >= 1 && n < Tens(k)
    ensures |Text(n)| <= k
  {
    if n >= 10 {
      TextLength(n / 10, k - 1);
    }
  }

  /** What the ledger's columns can hold: twenty digits, eighteen of them decimals. */
  const COLUMN_LIMIT: nat := 100_000_000_000_000_000_000

  lemma ColumnDigits(units: nat)
    requires units < COLUMN_LIMIT
    ensures |Text(units)| <= 20
  {
    hide Text;
    assert Tens(6) == 1_000_000;
    assert Tens(12) == 1_000_000 * Tens(6) by {
      assert Tens(9) == 1_000 * Tens(6);
      assert Tens(12) == 1_000 * Tens(9);
    }
    assert Tens(15) == 1_000 * Tens(12);
    assert Tens(18) == 1_000 * Tens(15);
    assert Tens(20) == 100 * Tens(18);
    TextLength(units, 20);
  }

  /** Such a ratio is a plain decimal, so its percentage is exact and nothing else is supplied with it. */
  lemma LedgerTextIsPlain(units: nat)
    requires units < COLUMN_LIMIT
    ensures PlainDecimal(LedgerText(units))
  {
    hide Text, WholeValue, Numeral, WholeDigits, FractionDigits;
    ColumnDigits(units);
    var padded := PlacedDigits(units, 18);
    PlacedParts(padded, 18);
  }

  lemma PlainNumeral(n: nat)
    ensures Numeral(Text(n)) && Value(Text(n)) == n as real
  {
    hide Text, Numeral, Value;
    PlainText(n, "");
    assert Text(n) + "" == Text(n);
    NoFraction();
  }

  /** Every rendering whose canonical form is a numeral renders a supplied number. */
  lemma RenderingIsSupplied(u: Library, p: Payload, s: string, v: real)
    requires Renders(u, p, |p.context|, s) && Denotes(s, v)
    ensures Supplied(u, p, v)
  {
    hide Text, Numeral, Value, MajorText, Denotes, RendersRatio;
    PlainNumeral(p.amountSubunits);
    MajorIsExact(p.amountSubunits);
    NumeralDenotes(Text(p.amountSubunits), v);
    NumeralDenotes(MajorText(p.amountSubunits), v);
    if i, n: nat :| 0 <= i < |p.context| && Supplies(p.context[i], n) && s == Text(n) {
      PlainNumeral(n);
      NumeralDenotes(s, v);
      assert IsWhole(v, n);
    }
  }

  lemma SuppliedIsRendered(u: Library, p: Payload, v: real) returns (s: string)
    requires Supplied(u, p, v)
    ensures Renders(u, p, |p.context|, s) && Denotes(s, v)
  {
    hide Text, Numeral, Value, MajorText, Denotes, RendersRatio;
    if v == p.amountSubunits as real {
      PlainNumeral(p.amountSubunits);
      s := Text(p.amountSubunits);
      NumeralDenotes(s, v);
    } else if v == p.amountSubunits as real / 100.0 {
      MajorIsExact(p.amountSubunits);
      s := MajorText(p.amountSubunits);
      NumeralDenotes(s, v);
    } else if SuppliesRatio(u, p.probability, v) {
      s :| RendersRatio(u, p.probability, s) && Denotes(s, v);
    } else if SuppliesRatio(u, p.threshold, v) {
      s :| RendersRatio(u, p.threshold, s) && Denotes(s, v);
    } else {
      var i, n: nat :| 0 <= i < |p.context| && Supplies(p.context[i], n) && IsWhole(v, n);
      PlainNumeral(n);
      s := Text(n);
      NumeralDenotes(s, v);
    }
  }

  /** Canonical numerals for one number are one string. */
  lemma SameCanonical(a: string, b: string)
    requires Numeral(a) && Numeral(Normalise(b))
    ensures Normalise(a) == Normalise(Normalise(b)) <==> Value(a) == Value(Normalise(b))
  {
    NormaliseDecidesEquality(a, Normalise(b));
  }

  /** A canonical form that is a numeral is canonical already. */
  lemma NumeralIsSettled(s: string)
    requires Numeral(Normalise(s))
    ensures Normalise(Normalise(s)) == Normalise(s)
  {
    var text := Strip(RemoveCommas(s));
    IdempotentUnlessPadded(s);
    NormalForm(s);
    CanonicalPadding(text);
    hide Normalise, Strip, RemoveCommas, Canonical, WholePart, FractionPart, PartsPadded;
    NumeralIsUnpadded(Normalise(s));
  }

  lemma NumeralIsUnpadded(r: string)
    requires Numeral(r)
    ensures !PaddedLeft(r) && !PaddedRight(r)
  {
    var k := DotAt(r);
    assert k < |r| ==> r[|r| - 1] == r[k + 1..][|r| - k - 2];
  }

  /** A numeral is permitted exactly when the number it denotes was supplied: no rounding, no truncation, any spelling. */
  lemma PermittedIffSupplied(u: Library, p: Payload, m: string)
    requires Numeral(m)
    ensures Permits(u, p, |p.context|, Normalise(m)) <==> Supplied(u, p, Value(m))
  {
    hide Text, Numeral, Value, MajorText, Normalise, Renders, Supplied;
    NormaliseKeepsValue(m);
    if Permits(u, p, |p.context|, Normalise(m)) {
      var s :| Renders(u, p, |p.context|, s) && Normalise(m) == Normalise(s);
      assert Denotes(s, Value(m));
      RenderingIsSupplied(u, p, s, Value(m));
    }
    if Supplied(u, p, Value(m)) {
      var s := SuppliedIsRendered(u, p, Value(m));
      NumeralIsSettled(s);
      SameCanonical(m, s);
    }
  }

  // ----- digits outside ASCII

  lemma TrimmingKeeps(s: string, c: char)
    requires c in s && c != '0'
    ensures c in TrimLeft(s) && c in TrimRight(s)
  {
    TrimLeftKeeps(s, c);
    TrimRightKeeps(s, c);
  }

  lemma {:induction false} TrimLeftKeeps(s: string, c: char)
    requires c in s && c != '0'
    ensures c in TrimLeft(s)
  {
    if s[0] == '0' {
      assert s == [s[0]] + s[1..];
      TrimLeftKeeps(s[1..], c);
    }
  }

  lemma {:induction false} TrimRightKeeps(s: string, c: char)
    requires c in s && c != '0'
    ensures c in TrimRight(s)
  {
    var n := |s| - 1;
    if s[n] == '0' {
      assert s == s[..n] + [s[n]];
      TrimRightKeeps(s[..n], c);
    }
  }

  lemma {:induction false} StripLeftKeeps(s: string, c: char)
    requires c in s && !IsSpace(c)
    ensures c in StripLeft(s)
  {
    if IsSpace(s[0]) {
      assert s == [s[0]] + s[1..];
      StripLeftKeeps(s[1..], c);
    }
  }

  lemma {:induction false} StripRightKeeps(s: string, c: char)
    requires c in s && !IsSpace(c)
    ensures c in StripRight(s)
  {
    var n := |s| - 1;
    if IsSpace(s[n]) {
      assert s == s[..n] + [s[n]];
      StripRightKeeps(s[..n], c);
    }
  }

  /** Normalising loses only commas, dots, zeros and white space. */
  lemma NormaliseKeeps(s: string, c: char)
    requires c in s && c != ',' && c != '.' && c != '0' && !IsSpace(c)
    ensures c in Normalise(s)
  {
    hide TrimLeft, TrimRight, DotAt, Normalise, IsSpace, Canonical, WholePart, FractionPart;
    var bare := RemoveCommas(s);
    StripLeftKeeps(bare, c);
    StripRightKeeps(StripLeft(bare), c);
    var text := Strip(bare);
    hide RemoveCommas, Strip, StripLeft, StripRight;
    NormalForm(s);
    CanonicalKeeps(text, c);
  }

  lemma CanonicalKeeps(text: string, c: char)
    requires c in text && c != '.' && c != '0'
    ensures c in Canonical(WholePart(text), FractionPart(text))
  {
    hide TrimLeft, TrimRight, DotAt, Canonical;
    AroundDot(text, c);
    if c in text[..DotAt(text)] {
      TrimmingKeeps(text[..DotAt(text)], c);
    } else {
      TrimmingKeeps(text[DotAt(text) + 1..], c);
    }
    CanonicalHolds(WholePart(text), FractionPart(text), c);
  }

  lemma AroundDot(text: string, c: char)
    requires c in text && c != '.'
    ensures c in text[..DotAt(text)] || (DotAt(text) < |text| && c in text[DotAt(text) + 1..])
  {
    hide DotAt;
    var k := DotAt(text);
    var i :| 0 <= i < |text| && text[i] == c;
    if i < k {
      assert text[..k][i] == c;
    } else {
      assert text[k + 1..][i - k - 1] == c;
    }
  }

  lemma CanonicalHolds(whole: string, fraction: string, c: char)
    requires c in whole || c in fraction
    ensures c in Canonical(whole, fraction)
  {
  }

  /** A match with a digit outside ASCII is no numeral in any spelling, so only a ratio that holds one permits it. */
  lemma ForeignIsNoNumeral(u: Library, m: string)
    requires Sane(u) && Foreign(u, m)
    ensures !Numeral(Normalise(m))
  {
    hide Normalise;
    var i :| 0 <= i < |m| && m[i] in u.digits;
    NormaliseKeeps(m, m[i]);
    var j :| 0 <= j < |Normalise(m)| && Normalise(m)[j] == m[i];
    if Numeral(Normalise(m)) {
      NumeralIsAscii(Normalise(m));
      assert false;
    }
  }

  /** What lets a match pass: a numeral, its number supplied; else a ratio rendering with the same canonical form. */
  ghost predicate Grounded(u: Library, p: Payload, m: string) {
    if Numeral(m) then Supplied(u, p, Value(m))
    else exists s :: (RendersRatio(u, p.probability, s) || RendersRatio(u, p.threshold, s)) && Normalise(s) == Normalise(m)
  }

  lemma PermittedIffGrounded(u: Library, p: Payload, m: string)
    requires Sane(u) && (Numeral(m) <==> !Foreign(u, m))
    ensures Permits(u, p, |p.context|, Normalise(m)) <==> Grounded(u, p, m)
  {
    hide Numeral, Normalise, Supplied, Text, MajorText, RendersRatio, Value, Foreign;
    if Numeral(m) {
      PermittedIffSupplied(u, p, m);
    } else {
      ForeignIsNoNumeral(u, m);
      if Permits(u, p, |p.context|, Normalise(m)) {
        var s :| Renders(u, p, |p.context|, s) && Normalise(m) == Normalise(s);
        OnlyRatiosAreNoNumerals(u, p, s);
      }
      if s :| (RendersRatio(u, p.probability, s) || RendersRatio(u, p.threshold, s)) && Normalise(s) == Normalise(m) {
        assert Renders(u, p, |p.context|, s);
      }
    }
  }

  lemma OnlyRatiosAreNoNumerals(u: Library, p: Payload, s: string)
    requires Renders(u, p, |p.context|, s) && !Numeral(Normalise(s))
    ensures RendersRatio(u, p.probability, s) || RendersRatio(u, p.threshold, s)
  {
    hide Numeral, Normalise, Text, MajorText, RendersRatio;
    if Numeral(s) {
      NormaliseKeepsValue(s);
      assert false;
    }
    PlainNumeral(p.amountSubunits);
    MajorIsExact(p.amountSubunits);
    forall i, n: nat | 0 <= i < |p.context| && Supplies(p.context[i], n)
      ensures s != Text(n)
    {
      PlainNumeral(n);
    }
  }

  /** Ratios that are plain decimals ground no match with a digit outside ASCII. */
  lemma ForeignIsRefused(u: Library, p: Payload, m: string)
    requires Sane(u) && Foreign(u, m) && PlainDecimal(p.probability) && PlainDecimal(p.threshold)
    ensures !Grounded(u, p, m)
  {
    hide Numeral, Normalise, Foreign;
    ForeignIsNoNumeral(u, m);
    PlainRenderings(u, p.probability);
    PlainRenderings(u, p.threshold);
    hide RendersRatio, PlainDecimal, Supplied;
    if Numeral(m) {
      NormaliseKeepsValue(m);
      assert false;
    }
  }

  lemma PlainRenderings(u: Library, ratio: string)
    requires PlainDecimal(ratio)
    ensures forall s :: RendersRatio(u, ratio, s) ==> Numeral(Normalise(s))
  {
    hide Numeral, Normalise, PercentText, PercentOf, PlainDecimal;
    PlainIsNumeral(ratio);
    PercentIsExact(ratio);
    PercentOfPlain(u, ratio);
    NormaliseKeepsValue(ratio);
    NormaliseKeepsValue(PercentText(ratio));
  }

  // ----- payloads built from the ledger

  /** A decided row and its context as an explanation's input; the two columns are in units of the eighteenth decimal. */
  function LedgerPayload(amount: nat, probability: nat, threshold: nat, context: seq<Aggregate>): Payload {
    Payload(amount, LedgerText(probability), LedgerText(threshold), context)
  }

  predicate IsRatio(units: nat, v: real) {
    v == units as real / 1_000_000_000_000_000_000.0 || v == 100.0 * (units as real / 1_000_000_000_000_000_000.0)
  }

  /** The amount in either unit, a column or its percentage, a count, or a component of a duration. */
  ghost predicate InLedger(amount: nat, probability: nat, threshold: nat, context: seq<Aggregate>, v: real) {
    || v == amount as real || v == amount as real / 100.0
    || IsRatio(probability, v) || IsRatio(threshold, v)
    || exists i, n: nat :: 0 <= i < |context| && Supplies(context[i], n) && IsWhole(v, n)
  }

  lemma LedgerRatio(u: Library, units: nat, v: real)
    requires units < COLUMN_LIMIT
    ensures SuppliesRatio(u, LedgerText(units), v) <==> IsRatio(units, v)
  {
    hide PlainDecimal, LedgerText, SuppliesRatio, Value, Numeral;
    LedgerTextIsPlain(units);
    LedgerTextIsExact(units);
    PlainRatioSupplies(u, LedgerText(units), v);
  }

  /** The numbers a ledger row supplies, to numerals and to number words. */
  lemma LedgerSupplies(u: Library, amount: nat, probability: nat, threshold: nat, context: seq<Aggregate>, v: real)
    requires probability < COLUMN_LIMIT && threshold < COLUMN_LIMIT
    ensures Supplied(u, LedgerPayload(amount, probability, threshold, context), v)
       <==> InLedger(amount, probability, threshold, context, v)
  {
    hide LedgerText, SuppliesRatio, IsRatio, Supplies;
    LedgerRatio(u, probability, v);
    LedgerRatio(u, threshold, v);
  }

  /** In a text about a ledger row a match passes exactly when it is an ASCII numeral for one of the row's numbers. */
  lemma LedgerGrounds(u: Library, amount: nat, probability: nat, threshold: nat, context: seq<Aggregate>, m: string)
    requires Sane(u) && (Numeral(m) <==> !Foreign(u, m))
    requires probability < COLUMN_LIMIT && threshold < COLUMN_LIMIT
    ensures Grounded(u, LedgerPayload(amount, probability, threshold, context), m)
       <==> Numeral(m) && InLedger(amount, probability, threshold, context, Value(m))
  {
    hide PlainDecimal, LedgerText, Supplied, InLedger, RendersRatio, Value, Numeral, Foreign, Normalise;
    var p := LedgerPayload(amount, probability, threshold, context);
    if Numeral(m) {
      LedgerSupplies(u, amount, probability, threshold, context, Value(m));
    } else {
      LedgerTextIsPlain(probability);
      LedgerTextIsPlain(threshold);
      ForeignIsRefused(u, p, m);
    }
  }

  // ----- number words

  const NUMBER_WORDS: seq<(string, nat)> := [
    ("two", 2), ("three", 3), ("four", 4), ("five", 5), ("six", 6), ("seven", 7), ("eight", 8), ("nine", 9), ("ten", 10),
    ("eleven", 11), ("twelve", 12), ("thirteen", 13), ("fourteen", 14), ("fifteen", 15), ("sixteen", 16),
    ("seventeen", 17), ("eighteen", 18), ("nineteen", 19), ("twenty", 20), ("thirty", 30), ("forty", 40), ("fifty", 50),
    ("hundred", 100), ("thousand", 1000)
  ]

  predicate IsWordChar(u: Library, c: char) {
    'a' <= c <= 'z' || 'A' <= c <= 'Z' || c == '_' || AnyDigit(u, c) || c in u.letters
  }

  /** A word character on exactly one side. */
  predicate Boundary(u: Library, s: string, i: nat)
    requires i <= |s|
  {
    (i > 0 && IsWordChar(u, s[i - 1])) != (i < |s| && IsWordChar(u, s[i]))
  }

  /** The word stands alone somewhere in the text. */
  predicate HasWord(u: Library, s: string, w: string) {
    exists i | 0 <= i <= |s| - |w| :: s[i..i + |w|] == w && Boundary(u, s, i) && Boundary(u, s, i + |w|)
  }

  datatype Rejection = UnsupportedNumber

  /** Every numeral of the text is allowed, and so is the value of every listed number word that stands alone in it. */
  predicate Passes(u: Library, text: string, allowed: set<string>) {
    && (forall m :: m in Matches(u, text) ==> Normalise(m) in allowed)
    && forall k :: 0 <= k < |NUMBER_WORDS| && HasWord(u, u.fold(text), NUMBER_WORDS[k].0) ==> Text(NUMBER_WORDS[k].1) in allowed
  }

  method CheckNumerals(u: Library, text: string, allowed: set<string>) returns (r: Result<(), Rejection>)
    ensures r.Ok? <==> Passes(u, text, allowed)
  {
    hide Text, Normalise, Matches, HasWord, NUMBER_WORDS;
    var matches := Matches(u, text);
    for i := 0 to |matches|
      invariant forall k :: 0 <= k < i ==> Normalise(matches[k]) in allowed
    {
      if Normalise(matches[i]) !in allowed {
        assert matches[i] in matches;
        return Err(UnsupportedNumber);
      }
    }
    var lowered := u.fold(text);
    for i := 0 to |NUMBER_WORDS|
      invariant forall k :: 0 <= k < i && HasWord(u, lowered, NUMBER_WORDS[k].0) ==> Text(NUMBER_WORDS[k].1) in allowed
    {
      if HasWord(u, lowered, NUMBER_WORDS[i].0) && Text(NUMBER_WORDS[i].1) !in allowed {
        return Err(UnsupportedNumber);
      }
    }
    return Ok(());
  }

  /** Plain decimal text is canonical already. */
  lemma TextIsCanonical(n: nat)
    ensures Normalise(Text(n)) == Text(n)
  {
    hide Normalise, Text, Strip, RemoveCommas, TrimLeft, TrimRight, Numeral;
    var s := Text(n);
    PlainNumeral(n);
    NormalForm(s);
    NumeralParts(s);
    DotIsThere(s, "");
    assert s + "" == s && s[..|s|] == s && ',' !in s;
    NoCommas(s);
    TrimEmpty();
    ZeroText(n);
  }

  lemma ZeroText(n: nat)
    ensures if n == 0 then Text(n) == "0" && TrimLeft(Text(n)) == "" else TrimLeft(Text(n)) == Text(n)
  {
    hide WholeValue;
    if n == 0 {
      assert Text(0) == [Digit(0)];
      assert Digit(0) == '0';
      assert Text(0)[1..] == "";
    }
  }

  /**
   * A text passes exactly when each of its numerals is grounded in the payload
   * and each listed number word standing alone in it names a supplied number.
   */
  method CheckGrounded(u: Library, p: Payload, text: string) returns (r: Result<(), Rejection>)
    requires Sane(u)
    ensures r.Ok? <==>
              && (forall m :: m in Matches(u, text) ==> Grounded(u, p, m))
              && (forall k :: 0 <= k < |NUMBER_WORDS| && HasWord(u, u.fold(text), NUMBER_WORDS[k].0) ==>
                    Supplied(u, p, NUMBER_WORDS[k].1 as real))
  {
    hide Text, Normalise, Matches, Numeral, Value, Supplied, Permits, HasWord, NUMBER_WORDS, Grounded, Foreign, Sane;
    var allowed := PermittedNumerals(u, p);
    r := CheckNumerals(u, text, allowed);
    MatchesAreNumerals(u, text);
    forall m | m in Matches(u, text)
      ensures Normalise(m) in allowed <==> Grounded(u, p, m)
    {
      PermittedIffGrounded(u, p, m);
    }
    forall k | 0 <= k < |NUMBER_WORDS|
      ensures Text(NUMBER_WORDS[k].1) in allowed <==> Supplied(u, p, NUMBER_WORDS[k].1 as real)
    {
      var n := NUMBER_WORDS[k].1;
      PlainNumeral(n);
      TextIsCanonical(n);
      PermittedIffSupplied(u, p, Text(n));
    }
  }

  // ----- number words that are not listed

  ghost predicate LowerCase(s: string) {
    forall i :: 0 <= i < |s| ==> 'a' <= s[i] <= 'z'
  }

  lemma {:induction false} NoMatches(u: Library, s: string)
    requires Sane(u) && LowerCase(s)
    ensures Matches(u, s) == []
  {
    if s != "" {
      NoMatches(u, s[1..]);
    }
  }

  /** In a text that is one word, only that word stands alone. */
  lemma OnlyItself(u: Library, s: string, w: string)
    requires LowerCase(s) && w != "" && HasWord(u, s, w)
    ensures w == s
  {
    var i :| 0 <= i <= |s| - |w| && s[i..i + |w|] == w && Boundary(u, s, i) && Boundary(u, s, i + |w|);
    assert i == 0 && i + |w| == |s|;
  }

  /** A text of one lower-case word that is not listed passes, whatever is allowed. */
  lemma UnlistedWordPasses(u: Library, word: string, allowed: set<string>)
    requires Sane(u) && LowerCase(word) && u.fold(word) == word
    requires forall k :: 0 <= k < |NUMBER_WORDS| ==> NUMBER_WORDS[k].0 != word
    ensures Passes(u, word, allowed)
  {
    hide HasWord, Matches;
    NoMatches(u, word);
    forall k | 0 <= k < |NUMBER_WORDS|
      ensures !HasWord(u, word, NUMBER_WORDS[k].0)
    {
      if HasWord(u, word, NUMBER_WORDS[k].0) {
        OnlyItself(u, word, NUMBER_WORDS[k].0);
        assert false;
      }
    }
  }

  /** Ninety is such a word. */
  lemma NinetySlips(u: Library, allowed: set<string>)
    requires Sane(u) && u.fold("ninety") == "ninety"
    ensures Passes(u, "ninety", allowed)
  {
    hide Passes;
    var word := "ninety";
    assert |word| == 6;
    forall k | 0 <= k < |NUMBER_WORDS|
      ensures NUMBER_WORDS[k].0 != word
    {
      var other := NUMBER_WORDS[k].0;
      assert other[0] != 'n' || other[3] != 'e' || |other| != 6 by {
        assert |other| >= 3;
      }
    }
    UnlistedWordPasses(u, word, allowed);
  }
}
