/** Letters, digits and lower case. */
module Letters {
  import opened Text

  const CAPITALS := "ABCDEFGHIJKLMNOPQRSTUVWXYZ"
  const LETTERS := "abcdefghijklmnopqrstuvwxyz"
  const DIGITS := "0123456789"

  function LowerChar(c: char): char {
    if 'A' <= c <= 'Z' then (c as int + 32) as char else c
  }

  function Lower(s: string): string {
    seq(|s|, i requires 0 <= i < |s| => LowerChar(s[i]))
  }

  /** The word occurs in the text, in whatever case; the word itself is in lower case. */
  predicate ContainsIgnoringCase(text: string, word: string) {
    Contains(Lower(text), word)
  }

  predicate AreDigits(s: string) {
    forall c | c in s :: c in DIGITS
  }

  /** Lower case changes the capital letters into the letters of the same place, and nothing else. */
  lemma LowerIsExact(s: string, i: nat, k: nat)
    requires i < |s| && k < 26
    ensures |Lower(s)| == |s|
    ensures s[i] == CAPITALS[k] ==> Lower(s)[i] == LETTERS[k]
    ensures s[i] !in CAPITALS ==> Lower(s)[i] == s[i]
  {
    CapitalsAreARange(s[i]);
    PlacesAgree(k);
  }

  lemma PlacesAgree(k: nat)
    requires k < 26
    ensures CAPITALS[k] as int == 65 + k && LETTERS[k] as int == 97 + k
  {
  }

  lemma CapitalsAreARange(c: char)
    ensures c in CAPITALS <==> 'A' <= c <= 'Z'
  {
    if 'A' <= c <= 'Z' {
      PlacesAgree(c as int - 65);
      assert CAPITALS[c as int - 65] == c;
    }
    if c in CAPITALS {
      var k :| 0 <= k < |CAPITALS| && CAPITALS[k] == c;
      PlacesAgree(k);
    }
  }

  lemma LettersAreARange(c: char)
    ensures c in LETTERS <==> 'a' <= c <= 'z'
  {
    if 'a' <= c <= 'z' {
      PlacesAgree(c as int - 97);
      assert LETTERS[c as int - 97] == c;
    }
    if c in LETTERS {
      var k :| 0 <= k < |LETTERS| && LETTERS[k] == c;
      PlacesAgree(k);
    }
  }

  lemma DigitsAreARange(c: char)
    ensures c in DIGITS <==> '0' <= c <= '9'
  {
    if '0' <= c <= '9' {
      assert DIGITS[c as int - 48] == c;
    }
  }

}
