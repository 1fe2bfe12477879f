/** Flattening and filtering sequences, generic in what they hold. */
module Sequences {
  import opened Sorting

  function FlatMap<T, U>(f: T -> seq<U>, xs: seq<T>): seq<U> {
    if xs == [] then [] else FlatMap(f, xs[..|xs| - 1]) + f(xs[|xs| - 1])
  }

  lemma FlatMapAppend<T, U>(f: T -> seq<U>, xs: seq<T>, x: T)
    ensures FlatMap(f, xs + [x]) == FlatMap(f, xs) + f(x)
  {
    assert (xs + [x])[..|xs|] == xs;
  }

  function Filter<T>(keep: T -> bool, xs: seq<T>): seq<T> {
    if xs == [] then []
    else
      var init := Filter(keep, xs[..|xs| - 1]);
      if keep(xs[|xs| - 1]) then init + [xs[|xs| - 1]] else init
  }

  lemma FilterAppend<T>(keep: T -> bool, xs: seq<T>, x: T)
    ensures Filter(keep, xs + [x]) == if keep(x) then Filter(keep, xs) + [x] else Filter(keep, xs)
  {
    assert (xs + [x])[..|xs|] == xs;
  }

  lemma {:induction false} FilterMembers<T>(keep: T -> bool, xs: seq<T>)
    ensures forall x :: x in Filter(keep, xs) <==> x in xs && keep(x)
  {
    if xs != [] {
      FilterMembers(keep, xs[..|xs| - 1]);
      assert xs == xs[..|xs| - 1] + [xs[|xs| - 1]];
    }
  }

  /** Filters commute. */
  lemma {:induction false} FilterCommutes<T>(p: T -> bool, q: T -> bool, xs: seq<T>)
    ensures Filter(p, Filter(q, xs)) == Filter(q, Filter(p, xs))
  {
    if xs != [] {
      var init, last := xs[..|xs| - 1], xs[|xs| - 1];
      FilterCommutes(p, q, init);
      FilterAppend(p, Filter(q, init), last);
      FilterAppend(q, Filter(p, init), last);
    }
  }

  /** A filter that implies another absorbs it. */
  lemma {:induction false} FilterAbsorbs<T>(strong: T -> bool, weak: T -> bool, xs: seq<T>)
    requires forall x | x in xs :: strong(x) ==> weak(x)
    ensures Filter(strong, Filter(weak, xs)) == Filter(strong, xs)
  {
    if xs != [] {
      var init, last := xs[..|xs| - 1], xs[|xs| - 1];
      assert last in xs;
      FilterAbsorbs(strong, weak, init);
      FilterAppend(strong, Filter(weak, init), last);
    }
  }

  lemma {:induction false} FilterHasNoDuplicates<T>(keep: T -> bool, xs: seq<T>)
    requires NoDuplicates(xs)
    ensures NoDuplicates(Filter(keep, xs))
  {
    if xs != [] {
      var init, last := xs[..|xs| - 1], xs[|xs| - 1];
      forall i | 0 <= i < |init| ensures init[i] != last {
        assert xs[i] != xs[|xs| - 1];
      }
      FilterHasNoDuplicates(keep, init);
      FilterMembers(keep, init);
      forall i | 0 <= i < |Filter(keep, init)| ensures Filter(keep, init)[i] != last {
        assert Filter(keep, init)[i] in Filter(keep, init);
      }
    }
  }

  /** The places of what a filter keeps, in order. */
  ghost predicate ArePlaces<T(!new)>(keep: T -> bool, xs: seq<T>, places: seq<nat>) {
    && (forall i, j | 0 <= i < j < |places| :: places[i] < places[j])
    && (forall i | 0 <= i < |places| :: places[i] < |xs| && keep(xs[places[i]]))
    && (forall k | 0 <= k < |xs| && keep(xs[k]) :: k in places)
  }

  function At<T>(xs: seq<T>, places: seq<nat>): seq<T>
    requires forall i | 0 <= i < |places| :: places[i] < |xs|
  {
    seq(|places|, i requires 0 <= i < |places| => xs[places[i]])
  }

  /** A filter keeps exactly the members that it should, each at its place in the order. */
  lemma {:induction false} FilterIsExact<T(!new)>(keep: T -> bool, xs: seq<T>) returns (places: seq<nat>)
    ensures ArePlaces(keep, xs, places)
    ensures Filter(keep, xs) == At(xs, places)
  {
    if xs == [] {
      places := [];
    } else {
      var n := |xs| - 1;
      places := FilterIsExact(keep, xs[..n]);
      assert At(xs, places) == At(xs[..n], places);
      hide Filter;
      FilterAppend(keep, xs[..n], xs[n]);
      assert xs[..n] + [xs[n]] == xs;
      if keep(xs[n]) {
        assert At(xs, places + [n]) == At(xs, places) + [xs[n]];
        places := places + [n];
        assert places[|places| - 1] == n;
      }
    }
  }

  lemma {:induction false} FilterCons<T>(keep: T -> bool, x: T, xs: seq<T>)
    ensures Filter(keep, [x] + xs) == if keep(x) then [x] + Filter(keep, xs) else Filter(keep, xs)
  {
    if xs == [] {
      assert [x] + xs == [] + [x];
      FilterAppend(keep, [], x);
    } else {
      var init, last := xs[..|xs| - 1], xs[|xs| - 1];
      FilterCons(keep, x, init);
      assert [x] + xs == ([x] + init) + [last];
      FilterAppend(keep, [x] + init, last);
    }
  }

  /** What the order does not tell apart from `x`. */
  function Ties<T>(less: (T, T) -> bool, x: T): T -> bool {
    y => !less(x, y) && !less(y, x)
  }

  lemma {:induction false} InsertIsStable<T(!new)>(less: (T, T) -> bool, x: T, y: T, s: seq<T>)
    requires StrictWeakOrder(less)
    ensures Filter(Ties(less, x), Insert(less, y, s)) == Filter(Ties(less, x), [y] + s)
  {
    if s == [] || !less(s[0], y) {
    } else {
      var keep := Ties(less, x);
      InsertIsStable(less, x, y, s[1..]);
      FilterCons(keep, s[0], Insert(less, y, s[1..]));
      FilterCons(keep, y, s[1..]);
      FilterCons(keep, y, s);
      FilterCons(keep, s[0], s[1..]);
      assert s == [s[0]] + s[1..];
      assert !(keep(y) && keep(s[0]));
    }
  }

  /** Sorting keeps what it cannot tell apart in the order it was in. */
  lemma {:induction false} SortIsStable<T(!new)>(less: (T, T) -> bool, x: T, s: seq<T>)
    requires StrictWeakOrder(less)
    ensures Filter(Ties(less, x), Sort(less, s)) == Filter(Ties(less, x), s)
  {
    if s != [] {
      SortIsStable(less, x, s[1..]);
      InsertIsStable(less, x, s[0], Sort(less, s[1..]));
      FilterCons(Ties(less, x), s[0], Sort(less, s[1..]));
      FilterCons(Ties(less, x), s[0], s[1..]);
      assert s == [s[0]] + s[1..];
    }
  }

  // ---------------------------------------------------------------- where sorted items come from

  /** Every place once, and places in the order of their items, equal items as they were. */
  ghost predicate AreSortedPlaces<T(!new)>(less: (T, T) -> bool, xs: seq<T>, places: seq<nat>) {
    && |places| == |xs|
    && (forall i | 0 <= i < |places| :: places[i] < |xs|)
    && (forall k | 0 <= k < |xs| :: k in places)
    && InPlaceOrder(less, xs, places)
  }

  predicate PlaceBefore<T>(less: (T, T) -> bool, xs: seq<T>, a: int, b: int) {
    0 <= a < |xs| && 0 <= b < |xs| && (less(xs[a], xs[b]) || (!less(xs[b], xs[a]) && a < b))
  }

  function Shifted(places: seq<nat>): seq<nat> {
    seq(|places|, i requires 0 <= i < |places| => places[i] + 1)
  }

  ghost predicate InPlaceOrder<T(!new)>(less: (T, T) -> bool, xs: seq<T>, places: seq<nat>) {
    forall i, j | 0 <= i < j < |places| :: PlaceBefore(less, xs, places[i], places[j])
  }

  /** A place that comes before all others goes to the front. */
  lemma PlaceFirst<T(!new)>(less: (T, T) -> bool, xs: seq<T>, first: nat, places: seq<nat>)
    requires InPlaceOrder(less, xs, places)
    requires forall p | p in places :: PlaceBefore(less, xs, first, p)
    ensures InPlaceOrder(less, xs, [first] + places)
  {
    hide PlaceBefore;
    var all := [first] + places;
    forall i, j | 0 <= i < j < |all| ensures PlaceBefore(less, xs, all[i], all[j]) {
      assert all[j] == places[j - 1] && places[j - 1] in places;
      assert i > 0 ==> all[i] == places[i - 1];
    }
  }

  lemma FirstIsBeforeAll<T(!new)>(less: (T, T) -> bool, xs: seq<T>, places: seq<nat>)
    requires StrictWeakOrder(less) && InPlaceOrder(less, xs, places) && xs != []
    requires forall i | 0 <= i < |places| :: 0 < places[i] < |xs|
    requires places != [] ==> !less(xs[places[0]], xs[0])
    ensures forall p | p in places :: PlaceBefore(less, xs, 0, p)
  {
    forall p | p in places ensures PlaceBefore(less, xs, 0, p) {
      var i :| 0 <= i < |places| && places[i] == p;
      assert i > 0 ==> PlaceBefore(less, xs, places[0], places[i]);
    }
  }

  lemma HeadIsBeforeRest<T(!new)>(less: (T, T) -> bool, xs: seq<T>, places: seq<nat>)
    requires InPlaceOrder(less, xs, places) && places != []
    ensures forall p | p in places[1..] :: PlaceBefore(less, xs, places[0], p)
    ensures InPlaceOrder(less, xs, places[1..])
  {
    hide PlaceBefore;
    forall p | p in places[1..] ensures PlaceBefore(less, xs, places[0], p) {
      var i :| 0 <= i < |places[1..]| && places[1..][i] == p;
      assert places[i + 1] == p;
    }
    assert forall i | 0 <= i < |places| - 1 :: places[1..][i] == places[i + 1];
  }

  /** The first item goes before the first of the others that it does not have to follow. */
  lemma {:induction false} InsertedPlaces<T(!new)>(less: (T, T) -> bool, xs: seq<T>, places: seq<nat>) returns (all: seq<nat>)
    requires StrictWeakOrder(less) && xs != [] && InPlaceOrder(less, xs, places)
    requires forall i | 0 <= i < |places| :: 0 < places[i] < |xs|
    ensures |all| == |places| + 1 && 0 in all && (forall k | k in places :: k in all)
    ensures forall i | 0 <= i < |all| :: all[i] < |xs| && (all[i] == 0 || all[i] in places)
    ensures At(xs, all) == Insert(less, xs[0], At(xs, places))
    ensures InPlaceOrder(less, xs, all)
  {
    hide InPlaceOrder, StrictWeakOrder, PlaceBefore;
    if places == [] || !less(xs[places[0]], xs[0]) {
      all := [0] + places;
      assert At(xs, all) == [xs[0]] + At(xs, places);
      FirstIsBeforeAll(less, xs, places);
      PlaceFirst(less, xs, 0, places);
    } else {
      HeadIsBeforeRest(less, xs, places);
      var rest := InsertedPlaces(less, xs, places[1..]);
      all := [places[0]] + rest;
      assert places == [places[0]] + places[1..];
      assert At(xs, places)[1..] == At(xs, places[1..]);
      assert At(xs, all) == [xs[places[0]]] + At(xs, rest);
      LessIsBefore(less, xs, places[0], 0);
      PlaceFirst(less, xs, places[0], rest);
    }
  }

  lemma LessIsBefore<T>(less: (T, T) -> bool, xs: seq<T>, a: nat, b: nat)
    requires a < |xs| && b < |xs| && less(xs[a], xs[b])
    ensures PlaceBefore(less, xs, a, b)
  {
  }

  lemma {:induction false} SortedPlaces<T(!new)>(less: (T, T) -> bool, xs: seq<T>) returns (places: seq<nat>)
    requires StrictWeakOrder(less)
    ensures AreSortedPlaces(less, xs, places)
    ensures At(xs, places) == Sort(less, xs)
  {
    if xs == [] {
      places := [];
    } else {
      var before := SortedPlaces(less, xs[1..]);
      var shifted := Shifted(before);
      assert At(xs, shifted) == At(xs[1..], before);
      assert InPlaceOrder(less, xs, shifted) by {
        forall i, j | 0 <= i < j < |shifted| ensures PlaceBefore(less, xs, shifted[i], shifted[j]) {
          assert PlaceBefore(less, xs[1..], before[i], before[j]);
        }
      }
      hide InPlaceOrder, PlaceBefore;
      places := InsertedPlaces(less, xs, shifted);
      forall k | 0 <= k < |xs| ensures k in places {
        if k > 0 {
          var m: nat := k - 1;
          assert m in before;
          var i :| 0 <= i < |before| && before[i] == m;
          assert shifted[i] == k;
        }
      }
    }
  }
}
