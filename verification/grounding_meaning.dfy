/**
 * What the numeral pattern matches, when a number word stands alone and what
 * it is worth, character by character (src/riskloom/explanations/sanitizer.py).
 */
module GroundingMeaning {
  import opened Common
  import opened Numerals
  import opened Grounding

  /** Each digit is worth its place in this row. */
  lemma DigitsAreWorth(k: nat)
    requires k < 10
    ensures IsDigit("0123456789"[k]) && DigitValue("0123456789"[k]) == k && Digit(k) == "0123456789"[k]
  {
  }

  // ----- the pattern

  lemma TextWithoutDigits(u: Library, s: string)
    requires forall i :: 0 <= i < |s| ==> !AnyDigit(u, s[i])
    ensures Matches(u, s) == []
  {
    if s != "" {
      TextWithoutDigits(u, s[1..]);
    }
  }

  /** The next match begins at the next digit, and the search goes on where it ends. */
  lemma {:induction false} NextMatch(u: Library, gap: string, s: string)
    requires (forall i :: 0 <= i < |gap| ==> !AnyDigit(u, gap[i])) && s != "" && AnyDigit(u, s[0])
    ensures Matches(u, gap + s) == [s[..MatchLength(u, s)]] + Matches(u, s[MatchLength(u, s)..])
  {
    hide MatchLength;
    if gap == "" {
      assert gap + s == s;
    } else {
      assert (gap + s)[1..] == gap[1..] + s;
      NextMatch(u, gap[1..], s);
    }
  }

  /** All of these are digits or, if so allowed, commas, and no more of them follow. */
  predicate Runs(u: Library, s: string, from: nat, to: nat, commas: bool)
    requires from <= to <= |s|
  {
    && (forall i :: from <= i < to ==> AnyDigit(u, s[i]) || (commas && s[i] == ','))
    && (to < |s| ==> !AnyDigit(u, s[to]) && !(commas && s[to] == ','))
  }

  /** A match takes all digits and commas, and a dot with all digits after it if there is one at least. */
  lemma MatchMeans(u: Library, s: string) returns (k: nat)
    requires s != "" && AnyDigit(u, s[0])
    ensures 1 <= k <= |s| && Runs(u, s, 0, k, true)
    ensures var n := MatchLength(u, s);
            if k + 1 < |s| && s[k] == '.' && AnyDigit(u, s[k + 1]) then k + 2 <= n <= |s| && Runs(u, s, k + 1, n, false)
            else n == k
  {
    k := Run(u, s, true);
    if k + 1 < |s| && s[k] == '.' && AnyDigit(u, s[k + 1]) {
      var rest := s[k + 1..];
      var m := Run(u, rest, false);
      assert forall i :: 0 <= i < |rest| ==> rest[i] == s[k + 1 + i];
      assert forall i :: k + 1 <= i < k + 1 + m ==> s[i] == rest[i - k - 1];
    }
  }

  // ----- number words

  /** A letter, a digit, an underscore: what would continue a word. */
  predicate Continues(u: Library, s: string, i: int) {
    && 0 <= i < |s|
    && ('a' <= s[i] <= 'z' || 'A' <= s[i] <= 'Z' || '0' <= s[i] <= '9' || s[i] == '_' || s[i] in u.digits || s[i] in u.letters)
  }

  /** A word is found exactly where its letters stand with nothing before or after that would continue it. */
  lemma WordStandsAlone(u: Library, s: string, w: string)
    requires w != "" && forall i :: 0 <= i < |w| ==> 'a' <= w[i] <= 'z'
    ensures HasWord(u, s, w) <==>
            exists i :: 0 <= i <= |s| - |w| && StandsAt(u, s, w, i)
  {
    forall i | 0 <= i <= |s| - |w|
      ensures StandsAt(u, s, w, i) <==> s[i..i + |w|] == w && Boundary(u, s, i) && Boundary(u, s, i + |w|)
    {
      assert s[i..i + |w|] == w ==> s[i] == w[0] && s[i + |w| - 1] == w[|w| - 1];
    }
  }

  predicate StandsAt(u: Library, s: string, w: string, i: nat)
    requires i <= |s| - |w|
  {
    s[i..i + |w|] == w && !Continues(u, s, i - 1) && !Continues(u, s, i + |w|)
  }

  /** The English word for some numbers. */
  function WordFor(n: nat): Option<string> {
    match n
    case 2 => Some("two") case 3 => Some("three") case 4 => Some("four") case 5 => Some("five")
    case 6 => Some("six") case 7 => Some("seven") case 8 => Some("eight") case 9 => Some("nine")
    case 10 => Some("ten") case 11 => Some("eleven") case 12 => Some("twelve") case 13 => Some("thirteen")
    case 14 => Some("fourteen") case 15 => Some("fifteen") case 16 => Some("sixteen") case 17 => Some("seventeen")
    case 18 => Some("eighteen") case 19 => Some("nineteen") case 20 => Some("twenty") case 30 => Some("thirty")
    case 40 => Some("forty") case 50 => Some("fifty") case 100 => Some("hundred") case 1000 => Some("thousand")
    case _ => None
  }

  /** The table lists exactly the words for two to twenty, thirty, forty, fifty, a hundred and a thousand, each with its number. */
  lemma ListedWords(k: nat)
    requires k < |NUMBER_WORDS|
    ensures WordFor(NUMBER_WORDS[k].1) == Some(NUMBER_WORDS[k].0)
    ensures |NUMBER_WORDS| == 24
    ensures NUMBER_WORDS[k].1 == if k < 19 then k + 2 else if k < 22 then 10 * (k - 16) else if k == 22 then 100 else 1000
  {
  }
}
