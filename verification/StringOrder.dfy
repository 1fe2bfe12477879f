/** The lexicographic order of strings that JavaScript's default `sort()` uses. */
module StringOrder {
  import opened Sorting

  predicate Less(a: string, b: string) {
    if b == [] then false
    else if a == [] then true
    else if a[0] != b[0] then a[0] < b[0]
    else Less(a[1..], b[1..])
  }

  lemma {:induction false} Trichotomy(a: string, b: string)
    ensures !(Less(a, b) && Less(b, a))
    ensures a == b || Less(a, b) || Less(b, a)
    ensures a == b ==> !Less(a, b)
  {
    if a != [] && b != [] {
      Trichotomy(a[1..], b[1..]);
      assert a == [a[0]] + a[1..] && b == [b[0]] + b[1..];
    }
  }

  lemma {:induction false} NotLessIsTransitive(a: string, b: string, c: string)
    requires !Less(a, b) && !Less(b, c)
    ensures !Less(a, c)
  {
    if a != [] && b != [] && c != [] {
      if a[0] == b[0] == c[0] {
        NotLessIsTransitive(a[1..], b[1..], c[1..]);
      }
    }
  }

  lemma LessIsStrictTotalOrder()
    ensures StrictWeakOrder(Less)
    ensures forall a, b :: a != b ==> Less(a, b) || Less(b, a)
  {
    forall a, b ensures (Less(a, b) ==> !Less(b, a)) && (a != b ==> Less(a, b) || Less(b, a)) {
      Trichotomy(a, b);
    }
    forall a, b, c | !Less(a, b) && !Less(b, c) ensures !Less(a, c) {
      NotLessIsTransitive(a, b, c);
    }
  }

  /** Sorting strings depends only on which strings there are, and how often. */
  lemma SortForgetsOrder(a: seq<string>, b: seq<string>)
    requires multiset(a) == multiset(b)
    ensures Sort(Less, a) == Sort(Less, b)
  {
    LessIsStrictTotalOrder();
    SortIsSorted(Less, a);
    SortIsSorted(Less, b);
    SortIsPermutation(Less, a);
    SortIsPermutation(Less, b);
    SortedIsUnique(Less, Sort(Less, a), Sort(Less, b));
  }
}
