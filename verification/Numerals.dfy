/** Printing and reading natural numbers in base ten or sixteen, as `Number.prototype.toString` and
    `Number(...)` do. */
module Numerals {

  function Digit(d: nat): char
    requires d < 16
  {
    if d < 10 then (('0' as int) + d) as char else (('a' as int) + d - 10) as char
  }

  function DigitValue(c: char): nat {
    if '0' <= c <= '9' then (c as int) - ('0' as int)
    else if 'a' <= c <= 'f' then (c as int) - ('a' as int) + 10
    else 0
  }

  predicate IsDigit(c: char, base: nat) {
    ('0' <= c <= '9' || 'a' <= c <= 'f') && DigitValue(c) < base
  }

  function Print(n: nat, base: nat): string
    requires base == 10 || base == 16
  {
    if n < base then [Digit(n)] else Print(n / base, base) + [Digit(n % base)]
  }

  function Read(s: string, base: nat): nat
    requires base == 10 || base == 16
  {
    if s == [] then 0
    else
      var high := Read(s[..|s| - 1], base);
      (if base == 10 then high * 10 else high * 16) + DigitValue(s[|s| - 1])
  }

  function PadStart(s: string, width: nat): string
    decreases width - |s|
  {
    if |s| >= width then s else PadStart(['0'] + s, width)
  }

  lemma DigitRoundTrip(d: nat)
    requires d < 16
    ensures DigitValue(Digit(d)) == d
  {
  }

  lemma DivisionFacts(n: nat, base: nat)
    requires (base == 10 || base == 16) && base <= n
    ensures n / base < n && n % base < base && n == (if base == 10 then n / base * 10 else n / base * 16) + n % base
  {
  }

  lemma ReadAppend(s: string, c: char, base: nat)
    requires base == 10 || base == 16
    ensures Read(s + [c], base) == (if base == 10 then Read(s, base) * 10 else Read(s, base) * 16) + DigitValue(c)
  {
    assert (s + [c])[..|s|] == s;
  }

  lemma {:induction false} ReadPrint(n: nat, base: nat)
    requires base == 10 || base == 16
    ensures Read(Print(n, base), base) == n
  {
    if n < base {
      ReadAppend([], Digit(n), base);
      assert [] + [Digit(n)] == [Digit(n)];
      DigitRoundTrip(n);
    } else {
      ReadAppend(Print(n / base, base), Digit(n % base), base);
      DivisionFacts(n, base);
      ReadPrint(n / base, base);
      DigitRoundTrip(n % base);
    }
  }

  lemma {:induction false} PrintIsDigits(n: nat, base: nat)
    requires base == 10 || base == 16
    ensures Print(n, base) != []
    ensures forall c | c in Print(n, base) :: IsDigit(c, base)
  {
    if n >= base {
      DivisionFacts(n, base);
      PrintIsDigits(n / base, base);
    }
  }

  lemma {:induction false} PrintInjective(m: nat, n: nat, base: nat)
    requires (base == 10 || base == 16) && Print(m, base) == Print(n, base)
    ensures m == n
  {
    ReadPrint(m, base);
    ReadPrint(n, base);
  }

  lemma {:induction false} ReadLeadingZero(s: string, base: nat)
    requires base == 10 || base == 16
    ensures Read(['0'] + s, base) == Read(s, base)
  {
    if s == [] {
      assert (['0'] + s)[..0] == [];
    } else {
      ReadLeadingZero(s[..|s| - 1], base);
      assert (['0'] + s)[..|s|] == ['0'] + s[..|s| - 1];
    }
  }

  lemma {:induction false} ReadPadded(s: string, width: nat, base: nat)
    requires base == 10 || base == 16
    ensures Read(PadStart(s, width), base) == Read(s, base)
    decreases width - |s|
  {
    if |s| < width {
      ReadPadded(['0'] + s, width, base);
      ReadLeadingZero(s, base);
    }
  }
}
