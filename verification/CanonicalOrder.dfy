/** In which order the fields of a canonical object stand. */
module CanonicalOrder {
  import opened CanonicalJson
  import opened Json
  import opened Letters
  import opened Sequences
  import opened Sorting
  import Numerals
  import StringOrder

  // ---------------------------------------------------------------- index keys

  /** The decimal form of a number that can be an array index: digits, no zero in front, at most 4,294,967,294. */
  predicate IsNumeral(key: string) {
    && key != "" && AreDigits(key) && (|key| > 1 ==> key[0] != '0')
    && Numerals.Read(key, 10) <= 4_294_967_294
  }

  lemma DigitsSplit(s: string)
    requires AreDigits(s) && s != ""
    ensures AreDigits(s[..|s| - 1]) && '0' <= s[|s| - 1] <= '9'
  {
    assert s[|s| - 1] in s;
    DigitsAreARange(s[|s| - 1]);
    forall c | c in s[..|s| - 1] ensures c in DIGITS {
      assert c in s;
    }
  }

  lemma {:induction false} PrintedStartsWithNoZero(n: nat)
    ensures var s := Numerals.Print(n, 10);
            s != [] && (s[0] == '0' ==> n == 0) && (n > 0 ==> s[0] != '0')
  {
    if n >= 10 {
      Numerals.DivisionFacts(n, 10);
      PrintedStartsWithNoZero(n / 10);
    }
  }

  lemma {:induction false} ReadIsPositive(s: string)
    requires s != "" && '1' <= s[0] <= '9'
    ensures Numerals.Read(s, 10) > 0
  {
    if |s| > 1 {
      ReadIsPositive(s[..|s| - 1]);
    } else {
      assert s[..0] == [];
    }
  }

  /** A numeral without a zero in front is what its number is printed as. */
  lemma {:induction false} PrintRead(s: string)
    requires s != "" && AreDigits(s) && (|s| > 1 ==> s[0] != '0')
    ensures Numerals.Print(Numerals.Read(s, 10), 10) == s
  {
    var n := |s| - 1;
    var init, c := s[..n], s[n];
    assert s == init + [c];
    DigitsSplit(s);
    DigitBack(c);
    Numerals.ReadAppend(init, c, 10);
    FirstIsADigit(s);
    hide *;
    if n == 0 {
      assert init == [];
      NothingRead();
      OneDigit(Numerals.DigitValue(c));
    } else {
      PrintRead(init);
      ReadIsPositive(init);
      LastDigit(Numerals.Read(init, 10), Numerals.DigitValue(c));
    }
  }

  lemma FirstIsADigit(s: string)
    requires AreDigits(s) && s != ""
    ensures '0' <= s[0] <= '9'
  {
    assert s[0] in s;
    DigitsAreARange(s[0]);
  }

  lemma NothingRead()
    ensures Numerals.Read([], 10) == 0
  {
  }

  lemma OneDigit(d: nat)
    requires d < 10
    ensures Numerals.Print(d, 10) == [Numerals.Digit(d)]
  {
  }

  lemma DigitBack(c: char)
    requires '0' <= c <= '9'
    ensures Numerals.DigitValue(c) < 10 && Numerals.Digit(Numerals.DigitValue(c)) == c
  {
  }

  lemma LastDigit(high: nat, low: nat)
    requires high > 0 && low < 10
    ensures Numerals.Print(high * 10 + low, 10) == Numerals.Print(high, 10) + [Numerals.Digit(low)]
  {
    assert (high * 10 + low) / 10 == high && (high * 10 + low) % 10 == low;
  }

  lemma IndexIsNumeral(key: string)
    ensures IsIndex(key) <==> IsNumeral(key)
  {
    var n := Numerals.Read(key, 10);
    if IsIndex(key) {
      Numerals.PrintIsDigits(n, 10);
      PrintedStartsWithNoZero(n);
      forall c | c in key ensures c in DIGITS {
        DigitsAreARange(c);
      }
      assert n == 0 ==> Numerals.Print(0, 10) == "0";
    }
    if IsNumeral(key) {
      PrintRead(key);
    }
  }

  // ---------------------------------------------------------------- the order

  /** The first difference decides, and a beginning comes before the whole. */
  ghost predicate ComesBefore(a: string, b: string) {
    exists i: nat | i <= |a| && i < |b| :: DiffersAt(a, b, i)
  }

  predicate DiffersAt(a: string, b: string, i: nat)
    requires i <= |a| && i < |b|
  {
    a[..i] == b[..i] && (i == |a| || a[i] < b[i])
  }

  lemma ComesBeforeStep(a: string, b: string)
    requires a != [] && b != []
    ensures ComesBefore(a, b) <==> a[0] < b[0] || (a[0] == b[0] && ComesBefore(a[1..], b[1..]))
  {
    if ComesBefore(a, b) {
      var i: nat :| i <= |a| && i < |b| && DiffersAt(a, b, i);
      if i > 0 {
        assert a[0] == a[..i][0] && b[0] == b[..i][0];
        assert a[1..][..i - 1] == a[..i][1..] && b[1..][..i - 1] == b[..i][1..];
        assert DiffersAt(a[1..], b[1..], i - 1);
      }
    }
    if a[0] < b[0] {
      assert DiffersAt(a, b, 0);
    }
    if a[0] == b[0] && ComesBefore(a[1..], b[1..]) {
      var i: nat :| i <= |a[1..]| && i < |b[1..]| && DiffersAt(a[1..], b[1..], i);
      assert a[..i + 1] == [a[0]] + a[1..][..i] && b[..i + 1] == [b[0]] + b[1..][..i];
      assert DiffersAt(a, b, i + 1);
    }
  }

  lemma {:induction false} LessIsExact(a: string, b: string)
    ensures StringOrder.Less(a, b) <==> ComesBefore(a, b)
  {
    if a != [] && b != [] {
      ComesBeforeStep(a, b);
      LessIsExact(a[1..], b[1..]);
      hide ComesBefore;
    } else if b != [] {
      assert DiffersAt(a, b, 0);
    }
  }

  /** Index keys come first, in the order of their numbers; all others follow in the order of their characters. */
  ghost predicate StandsBefore(k: string, l: string) {
    if IsNumeral(k) then IsNumeral(l) ==> Numerals.Read(k, 10) < Numerals.Read(l, 10)
    else !IsNumeral(l) && ComesBefore(k, l)
  }

  lemma EnumerationIsAnOrder()
    ensures StrictWeakOrder(EnumeratedBefore)
  {
    hide IsIndex;
  }

  ghost predicate InKeyOrder(fields: seq<Field>) {
    forall i, j | 0 <= i < j < |fields| :: fields[i].key != fields[j].key && ComesBefore(fields[i].key, fields[j].key)
  }

  lemma KeysAreApart(fields: seq<Field>)
    requires DistinctKeys(fields)
    ensures InKeyOrder(Sort(KeyBefore, fields))
  {
    var sorted := Sort(KeyBefore, fields);
    KeyBeforeIsStrictWeakOrder();
    SortIsSorted(KeyBefore, fields);
    SortIsPermutation(KeyBefore, fields);
    DistinctKeysAfterSorting(fields, sorted);
    hide Sort;
    forall i, j | 0 <= i < j < |sorted| ensures sorted[i].key != sorted[j].key && ComesBefore(sorted[i].key, sorted[j].key) {
      assert !KeyBefore(sorted[j], sorted[i]);
      StringOrder.Trichotomy(sorted[i].key, sorted[j].key);
      LessIsExact(sorted[i].key, sorted[j].key);
    }
  }

  lemma DistinctKeysAfterSorting(a: seq<Field>, b: seq<Field>)
    requires DistinctKeys(a) && multiset(a) == multiset(b)
    ensures DistinctKeys(b)
  {
    SameMultisetSameMembers(a, b);
    assert NoDuplicates(a);
    NoDuplicatesOfPermutation(a, b);
    forall i, j | 0 <= i < j < |b| ensures b[i].key != b[j].key {
      assert b[i] in a && b[j] in a && b[i] != b[j];
    }
  }

  /** A canonical object has its fields in this order, each of them once. */
  lemma ArrangedInOrder(fields: seq<Field>)
    requires DistinctKeys(fields)
    ensures var r := Arrange(fields);
            multiset(r) == multiset(fields) && forall i, j | 0 <= i < j < |r| :: StandsBefore(r[i].key, r[j].key)
  {
    ArrangeIsPermutation(fields);
    var sorted := Sort(KeyBefore, fields);
    KeysAreApart(fields);
    EnumerationIsAnOrder();
    var places := SortedPlaces(EnumeratedBefore, sorted);
    var r := Arrange(fields);
    hide Sort, StrictWeakOrder, InKeyOrder, EnumeratedBefore, StandsBefore;
    forall i, j | 0 <= i < j < |r| ensures StandsBefore(r[i].key, r[j].key) {
      assert PlaceBefore(EnumeratedBefore, sorted, places[i], places[j]);
      PlacesStand(sorted, places[i], places[j]);
    }
  }

  lemma PlacesStand(sorted: seq<Field>, a: nat, b: nat)
    requires PlaceBefore(EnumeratedBefore, sorted, a, b) && InKeyOrder(sorted)
    ensures StandsBefore(sorted[a].key, sorted[b].key)
  {
    EnumeratedMeans(sorted[a], sorted[b]);
    EnumeratedMeans(sorted[b], sorted[a]);
    hide EnumeratedBefore, IsNumeral, ComesBefore;
    assert a != b ==> sorted[a].key != sorted[b].key;
  }

  lemma EnumeratedMeans(f: Field, g: Field)
    ensures EnumeratedBefore(f, g) <==> IsNumeral(f.key) && (IsNumeral(g.key) ==> Numerals.Read(f.key, 10) < Numerals.Read(g.key, 10))
    ensures IsNumeral(f.key) && IsNumeral(g.key) && f.key != g.key ==> Numerals.Read(f.key, 10) != Numerals.Read(g.key, 10)
  {
    IndexIsNumeral(f.key);
    IndexIsNumeral(g.key);
  }
}
