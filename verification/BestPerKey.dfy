/** Keeping the best item per key in a JavaScript `Map`, and ranking what is kept. */
module BestPerKey {
  import opened Sorting

  /** A `Map` from key to the best item seen, with the insertion order of its keys. */
  datatype Best<T> = Best(order: seq<string>, items: map<string, T>)

  function Keep<T>(key: T -> string, before: (T, T) -> bool, b: Best<T>, e: T): Best<T> {
    var k := key(e);
    if k !in b.items then Best(b.order + [k], b.items[k := e])
    else if before(e, b.items[k]) then Best(b.order, b.items[k := e])
    else b
  }

  function KeepAll<T>(key: T -> string, before: (T, T) -> bool, xs: seq<T>): Best<T> {
    if xs == [] then Best([], map[])
    else Keep(key, before, KeepAll(key, before, xs[..|xs| - 1]), xs[|xs| - 1])
  }

  ghost predicate Consistent<T>(key: T -> string, b: Best<T>) {
    && NoDuplicates(b.order)
    && (forall k :: k in b.order <==> k in b.items)
    && (forall k | k in b.items :: key(b.items[k]) == k)
  }

  /** Every value is one of `xs`, and no item of `xs` goes before the value kept for its key. */
  ghost predicate KeepsBest<T>(key: T -> string, before: (T, T) -> bool, b: Best<T>, xs: seq<T>) {
    && (forall k | k in b.items :: b.items[k] in xs)
    && (forall x | x in xs :: key(x) in b.items && !before(x, b.items[key(x)]))
  }

  lemma KeepIsConsistent<T>(key: T -> string, before: (T, T) -> bool, b: Best<T>, e: T)
    requires Consistent(key, b)
    ensures Consistent(key, Keep(key, before, b, e))
  {
  }

  lemma KeepKeepsBest<T(!new)>(key: T -> string, before: (T, T) -> bool, b: Best<T>, xs: seq<T>, e: T)
    requires StrictWeakOrder(before) && KeepsBest(key, before, b, xs)
    ensures KeepsBest(key, before, Keep(key, before, b, e), xs + [e])
  {
    var b' := Keep(key, before, b, e);
    assert !before(e, e);
    forall x | x in xs + [e] ensures key(x) in b'.items && !before(x, b'.items[key(x)]) {
      if x in xs && key(x) == key(e) {
        var kept := b.items[key(e)];
        assert !before(x, kept);
        if before(e, kept) {
          assert !before(kept, e);
        }
      }
    }
  }

  lemma {:induction false} KeepAllKeepsBest<T(!new)>(key: T -> string, before: (T, T) -> bool, xs: seq<T>)
    requires StrictWeakOrder(before)
    ensures Consistent(key, KeepAll(key, before, xs))
    ensures KeepsBest(key, before, KeepAll(key, before, xs), xs)
  {
    if xs != [] {
      var prefix, e := xs[..|xs| - 1], xs[|xs| - 1];
      KeepAllKeepsBest(key, before, prefix);
      KeepIsConsistent(key, before, KeepAll(key, before, prefix), e);
      KeepKeepsBest(key, before, KeepAll(key, before, prefix), prefix, e);
      assert xs == prefix + [e];
    }
  }

  function Values<T>(b: Best<T>): (vs: seq<T>)
    requires forall k | k in b.order :: k in b.items
  {
    seq(|b.order|, i requires 0 <= i < |b.order| => b.items[b.order[i]])
  }

  function Ranked<T(!new)>(key: T -> string, before: (T, T) -> bool, xs: seq<T>): seq<T>
    requires StrictWeakOrder(before)
  {
    KeepAllKeepsBest(key, before, xs);
    Sort(before, Values(KeepAll(key, before, xs)))
  }

  lemma MemberOfValues<T>(key: T -> string, b: Best<T>, e: T)
    requires Consistent(key, b)
    ensures e in Values(b) <==> key(e) in b.items && b.items[key(e)] == e
  {
    if key(e) in b.items && b.items[key(e)] == e {
      assert key(e) in b.order;
      var i :| 0 <= i < |b.order| && b.order[i] == key(e);
      assert Values(b)[i] == e;
    }
  }

  /** Ranked items are input items, without repetition, best first. */
  lemma RankedIsSorted<T(!new)>(key: T -> string, before: (T, T) -> bool, xs: seq<T>)
    requires StrictWeakOrder(before)
    ensures Sorted(before, Ranked(key, before, xs)) && NoDuplicates(Ranked(key, before, xs))
    ensures forall e | e in Ranked(key, before, xs) :: e in xs
  {
    KeepAllKeepsBest(key, before, xs);
    var vs := Values(KeepAll(key, before, xs));
    SortIsSorted(before, vs);
    SortIsPermutation(before, vs);
    NoDuplicatesOfPermutation(vs, Ranked(key, before, xs));
  }

  lemma MemberOfRanked<T(!new)>(key: T -> string, before: (T, T) -> bool, xs: seq<T>, e: T)
    requires StrictWeakOrder(before)
    ensures e in Ranked(key, before, xs) <==>
            key(e) in KeepAll(key, before, xs).items && KeepAll(key, before, xs).items[key(e)] == e
  {
    KeepAllKeepsBest(key, before, xs);
    MemberOfValues(key, KeepAll(key, before, xs), e);
    SortIsPermutation(before, Values(KeepAll(key, before, xs)));
  }

  /** Every input item is represented in the ranking by one with its key, no worse than itself. */
  lemma RankedPositionFor<T(!new)>(key: T -> string, before: (T, T) -> bool, xs: seq<T>, x: T) returns (i: nat)
    requires StrictWeakOrder(before) && x in xs
    ensures i < |Ranked(key, before, xs)|
    ensures key(Ranked(key, before, xs)[i]) == key(x) && !before(x, Ranked(key, before, xs)[i])
  {
    KeepAllKeepsBest(key, before, xs);
    var kept := KeepAll(key, before, xs).items[key(x)];
    MemberOfRanked(key, before, xs, kept);
    i :| 0 <= i < |Ranked(key, before, xs)| && Ranked(key, before, xs)[i] == kept;
  }

  lemma SameKept<T(!new)>(key: T -> string, before: (T, T) -> bool, xs: seq<T>, ys: seq<T>)
    requires StrictWeakOrder(before) && Separates(before, xs)
    requires forall e :: e in xs <==> e in ys
    ensures KeepAll(key, before, xs).items == KeepAll(key, before, ys).items
  {
    KeepAllKeepsBest(key, before, xs);
    KeepAllKeepsBest(key, before, ys);
    var kx, ky := KeepAll(key, before, xs), KeepAll(key, before, ys);
    forall k | k in kx.items ensures k in ky.items && kx.items[k] == ky.items[k] {
      var x := kx.items[k];
      assert x in ys && key(x) == k;
      var y := ky.items[k];
      assert y in xs && key(y) == k;
      assert !before(x, y) && !before(y, x);
    }
    forall k | k in ky.items ensures k in kx.items {
      assert ky.items[k] in xs && key(ky.items[k]) == k;
    }
  }

  /** Where distinct items are always ordered, the ranking depends only on which items there are. */
  lemma RankedIgnoresOrder<T(!new)>(key: T -> string, before: (T, T) -> bool, xs: seq<T>, ys: seq<T>)
    requires StrictWeakOrder(before) && Separates(before, xs)
    requires forall e :: e in xs <==> e in ys
    ensures Ranked(key, before, xs) == Ranked(key, before, ys)
  {
    SameKept(key, before, xs, ys);
    RankedIsSorted(key, before, xs);
    RankedIsSorted(key, before, ys);
    forall e ensures e in Ranked(key, before, xs) <==> e in Ranked(key, before, ys) {
      MemberOfRanked(key, before, xs, e);
      MemberOfRanked(key, before, ys, e);
    }
    SameMembersSameMultiset(Ranked(key, before, xs), Ranked(key, before, ys));
    SortedIsUnique(before, Ranked(key, before, xs), Ranked(key, before, ys));
  }
}
