/** The filter and the positions of a scrape: what a page holds, and when a position finds its match again. */
module Scrape {
  import opened Sequences
  import opened Sorting
  import opened Text
  import opened Wrappers

  datatype Hit = Hit(element: nat, sourceIndex: nat)

  datatype Match = Match(position: nat, hit: Hit)

  /** A number from the options: absent or not finite is `None`, a fraction has been cut off. */
  function BoundedInteger(value: Option<int>, fallback: int, low: int, high: int): (r: int)
    requires low <= fallback <= high
    ensures low <= r <= high
    ensures value == None ==> r == fallback
    ensures value.Some? && low <= value.value <= high ==> r == value.value
    ensures value.Some? && !(low <= value.value <= high) ==> r == if value.value < low then low else high
  {
    if value.None? then fallback
    else if value.value < low then low
    else if value.value > high then high
    else value.value
  }

  /** Empty wishes wish nothing. Texts and wishes are normalised and in lower case. */
  predicate Wanted(text: string, exact: string, contains: string) {
    (exact != "" ==> text == exact) && (contains != "" ==> Contains(text, contains))
  }

  /** A text is wanted when it is the exact one that is asked for, if any, and has the one it is to contain, if any, in it. */
  lemma WantedIsExact(text: string, exact: string, contains: string)
    ensures Wanted(text, exact, contains) <==>
            (exact == "" || text == exact) && (contains == "" || exists before, after :: text == before + contains + after)
  {
    if Contains(text, contains) {
      var i: nat :| i <= |text| && StartsAt(text, contains, i);
      assert text == text[..i] + contains + text[i + |contains|..];
    }
    if before, after :| text == before + contains + after {
      ContainsMiddle(before, contains, after);
    }
  }

  function Numbered(source: seq<nat>): (r: seq<Hit>)
    ensures |r| == |source| && forall i | 0 <= i < |r| :: r[i] == Hit(source[i], i)
  {
    seq(|source|, i requires 0 <= i < |source| => Hit(source[i], i))
  }

  function FilterHits(source: seq<nat>, text: nat -> string, exact: string, contains: string): seq<Hit> {
    Filter((h: Hit) => Wanted(text(h.element), exact, contains), Numbered(source))
  }

  function Min(a: nat, b: nat): nat {
    if a < b then a else b
  }

  /** Every hit under its position. */
  function Positioned(filtered: seq<Hit>): (r: seq<Match>)
    ensures |r| == |filtered|
  {
    seq(|filtered|, k requires 0 <= k < |filtered| => Match(k + 1, filtered[k]))
  }

  /** A page numbers the hits of its own slice, and so is that slice of all the numbered hits. */
  function Page(filtered: seq<Hit>, offset: nat, limit: nat): (r: seq<Match>)
    ensures r == Positioned(filtered)[Min(offset, |filtered|)..Min(offset + limit, |filtered|)]
  {
    var window := filtered[Min(offset, |filtered|)..Min(offset + limit, |filtered|)];
    seq(|window|, k requires 0 <= k < |window| => Match(offset + k + 1, window[k]))
  }

  function ScrapePage(filtered: seq<Hit>, offset: Option<int>, limit: Option<int>): seq<Match> {
    Page(filtered, BoundedInteger(offset, 0, 0, 100_000), BoundedInteger(limit, 100, 1, 1_000))
  }

  /** The match at a position, or how many there are. */
  function SelectMatch(filtered: seq<Hit>, position: Option<int>): Result<Match, nat> {
    var wanted := BoundedInteger(position, 1, 1, 100_000);
    var page := ScrapePage(filtered, Some(wanted - 1), Some(1));
    if page == [] then Err(|filtered|) else Ok(page[0])
  }

  /** Without wishes a page is the first hundred hits, and the position asked for is the first. */
  lemma DefaultsAreExact(filtered: seq<Hit>)
    ensures ScrapePage(filtered, None, None) == Positioned(filtered)[..Min(100, |filtered|)]
    ensures forall offset, limit :: ScrapePage(filtered, offset, None) == ScrapePage(filtered, offset, Some(100))
              && ScrapePage(filtered, None, limit) == ScrapePage(filtered, Some(0), limit)
    ensures SelectMatch(filtered, None) == SelectMatch(filtered, Some(1))
  {
  }

  /** A position is answered with the hit there, clamped to one and 100,000, or with how many hits there are. */
  lemma SelectionIsExact(filtered: seq<Hit>, position: int)
    ensures var p := if position < 1 then 1 else if position > 100_000 then 100_000 else position;
            SelectMatch(filtered, Some(position)) == if p <= |filtered| then Ok(Match(p, filtered[p - 1])) else Err(|filtered|)
  {
    var wanted := BoundedInteger(Some(position), 1, 1, 100_000);
    var page := ScrapePage(filtered, Some(wanted - 1), Some(1));
    assert BoundedInteger(Some(wanted - 1), 0, 0, 100_000) == wanted - 1;
    assert wanted <= |filtered| ==> |page| == 1 && page[0] == Match(wanted, filtered[wanted - 1]);
  }

  /** Which matches are on a page, each under its position. */
  lemma PageIsExact(filtered: seq<Hit>, offset: Option<int>, limit: Option<int>, m: Match)
    ensures var from := BoundedInteger(offset, 0, 0, 100_000);
            m in ScrapePage(filtered, offset, limit) <==>
            && from < m.position <= from + BoundedInteger(limit, 100, 1, 1_000)
            && m.position <= |filtered| && m.hit == filtered[m.position - 1]
  {
    var from, size := BoundedInteger(offset, 0, 0, 100_000), BoundedInteger(limit, 100, 1, 1_000);
    InSlice(filtered, Min(from, |filtered|), Min(from + size, |filtered|), m);
    hide Positioned, BoundedInteger;
  }

  lemma InSlice(filtered: seq<Hit>, from: nat, to: nat, m: Match)
    requires from <= to <= |filtered|
    ensures m in Positioned(filtered)[from..to] <==> from < m.position <= to && m.hit == filtered[m.position - 1]
  {
    var all := Positioned(filtered);
    if from < m.position <= to && m.hit == filtered[m.position - 1] {
      assert all[from..to][m.position - 1 - from] == m;
    }
    if m in all[from..to] {
      var k :| 0 <= k < to - from && all[from..to][k] == m;
      assert all[from + k] == m;
    }
  }

  lemma {:induction false} FilterKeepsOrder(keep: Hit -> bool, hits: seq<Hit>)
    requires forall i, j | 0 <= i < j < |hits| :: hits[i].sourceIndex < hits[j].sourceIndex
    ensures forall i, j | 0 <= i < j < |Filter(keep, hits)| ::
              Filter(keep, hits)[i].sourceIndex < Filter(keep, hits)[j].sourceIndex
  {
    if hits != [] {
      var init := hits[..|hits| - 1];
      FilterKeepsOrder(keep, init);
      FilterMembers(keep, init);
      forall i | 0 <= i < |Filter(keep, init)| ensures Filter(keep, init)[i].sourceIndex < hits[|hits| - 1].sourceIndex {
        assert Filter(keep, init)[i] in init;
      }
    }
  }

  /** The hits are exactly the wanted elements of the source, each with its own index, in source order. */
  lemma HitsAreTheWantedElements(source: seq<nat>, text: nat -> string, exact: string, contains: string)
    ensures forall i | 0 <= i < |source| ::
              Hit(source[i], i) in FilterHits(source, text, exact, contains) <==> Wanted(text(source[i]), exact, contains)
    ensures forall h | h in FilterHits(source, text, exact, contains) ::
              h.sourceIndex < |source| && source[h.sourceIndex] == h.element
    ensures var hits := FilterHits(source, text, exact, contains);
            forall i, j | 0 <= i < j < |hits| :: hits[i].sourceIndex < hits[j].sourceIndex
  {
    hide Wanted;
    var keep := (h: Hit) => Wanted(text(h.element), exact, contains);
    FilterMembers(keep, Numbered(source));
    FilterKeepsOrder(keep, Numbered(source));
    forall i | 0 <= i < |source|
      ensures Hit(source[i], i) in FilterHits(source, text, exact, contains) <==> Wanted(text(source[i]), exact, contains)
    {
      assert Numbered(source)[i] in Numbered(source);
    }
  }

  /** Asking for the position of a match gives that match again exactly when the position is at most 100,000, although
      pages reach up to position 101,000. */
  lemma PositionFindsItsMatch(filtered: seq<Hit>, offset: Option<int>, limit: Option<int>, m: Match)
    requires m in ScrapePage(filtered, offset, limit)
    ensures SelectMatch(filtered, Some(m.position)) == Ok(m) <==> m.position <= 100_000
    ensures SelectMatch(filtered, Some(m.position)).Ok? && m.position <= 101_000
  {
    PageIsExact(filtered, offset, limit, m);
    SelectionIsExact(filtered, m.position);
    hide ScrapePage, SelectMatch;
  }

  /** The first `n` pages of `limit` matches, one after the other. */
  function Turned(filtered: seq<Hit>, limit: nat, n: nat): seq<Match> {
    if n == 0 then [] else Turned(filtered, limit, n - 1) + ScrapePage(filtered, Some((n - 1) * limit), Some(limit))
  }

  lemma PageFollows(filtered: seq<Hit>, offset: nat, limit: nat)
    requires 1 <= limit <= 1_000 && (offset <= 100_000 || |filtered| <= 100_000)
    ensures Positioned(filtered)[..Min(offset, |filtered|)] + ScrapePage(filtered, Some(offset), Some(limit))
         == Positioned(filtered)[..Min(offset + limit, |filtered|)]
  {
    hide Positioned;
    var all, mid, end := Positioned(filtered), Min(offset, |filtered|), Min(offset + limit, |filtered|);
    assert all[..mid] + all[mid..end] == all[..end];
  }

  /** Page `n` begins where `n` pages of `limit` end. */
  lemma PageStarts(n: nat, limit: nat)
    requires n > 0
    ensures n * limit == (n - 1) * limit + limit
    ensures (n - 1) * limit >= 0
  {
  }

  lemma {:induction false} TurnedLength(filtered: seq<Hit>, limit: nat, n: nat)
    requires 1 <= limit <= 1_000
    ensures |Turned(filtered, limit, n)| >= Min(n * limit, |filtered|)
  {
    if n > 0 {
      PageStarts(n, limit);
      TurnedLength(filtered, limit, n - 1);
    }
  }

  lemma {:induction false} TurnedTiles(filtered: seq<Hit>, limit: nat, n: nat)
    requires 1 <= limit <= 1_000 && (n == 0 || (n - 1) * limit <= 100_000 || |filtered| <= 100_000)
    ensures Turned(filtered, limit, n) == Positioned(filtered)[..Min(n * limit, |filtered|)]
  {
    hide Positioned, ScrapePage;
    if n > 0 {
      PageStarts(n, limit);
      if n > 1 {
        PageStarts(n - 1, limit);
      }
      TurnedTiles(filtered, limit, n - 1);
      PageFollows(filtered, (n - 1) * limit, limit);
    }
  }

  /** A page that begins beyond the greatest offset begins with position 100,001 again. */
  lemma TurnedRepeats(filtered: seq<Hit>, limit: nat, n: nat)
    requires 1 <= limit <= 1_000 && n > 0 && (n - 1) * limit > 100_000 && |filtered| > 100_000
    ensures var k := |Turned(filtered, limit, n - 1)|;
            100_000 < k < |Turned(filtered, limit, n)| && Turned(filtered, limit, n)[k].position == 100_001
  {
    hide Positioned;
    var offset := (n - 1) * limit;
    TurnedLength(filtered, limit, n - 1);
    LatePage(filtered, offset, limit);
    hide ScrapePage;
  }

  lemma LatePage(filtered: seq<Hit>, offset: nat, limit: nat)
    requires 1 <= limit <= 1_000 && offset > 100_000 && |filtered| > 100_000
    ensures ScrapePage(filtered, Some(offset), Some(limit)) != []
    ensures ScrapePage(filtered, Some(offset), Some(limit))[0].position == 100_001
  {
  }

  lemma PositionsAreInOrder(filtered: seq<Hit>, k: nat)
    ensures k < |filtered| ==> Positioned(filtered)[k].position == k + 1
  {
  }

  /** Turning `n` pages shows the first hits once each, in order and numbered from one, exactly when no page begins
      beyond the greatest offset, 100,000, or no hit lies beyond it: a later page would show the same hits again. */
  lemma TurningPagesShowsEachHitOnce(filtered: seq<Hit>, limit: nat, n: nat)
    requires 1 <= limit <= 1_000
    ensures Turned(filtered, limit, n) == Positioned(filtered)[..Min(n * limit, |filtered|)]
       <==> n == 0 || (n - 1) * limit <= 100_000 || |filtered| <= 100_000
  {
    hide Turned, Positioned;
    if n == 0 || (n - 1) * limit <= 100_000 || |filtered| <= 100_000 {
      TurnedTiles(filtered, limit, n);
    } else {
      TurnedRepeats(filtered, limit, n);
      PositionsAreInOrder(filtered, |Turned(filtered, limit, n - 1)|);
    }
  }

  ghost predicate OnSomePage(filtered: seq<Hit>, m: Match) {
    exists offset, limit :: m in ScrapePage(filtered, offset, limit)
  }

  /** Exactly the first 101,000 hits are on some page. */
  lemma PagesReach(filtered: seq<Hit>, k: nat)
    requires k < |filtered|
    ensures OnSomePage(filtered, Positioned(filtered)[k]) <==> k < 101_000
  {
    var m := Positioned(filtered)[k];
    if k <= 100_000 {
      assert ScrapePage(filtered, Some(k), Some(1))[0] == m;
      assert m in ScrapePage(filtered, Some(k), Some(1));
    } else if k < 101_000 {
      assert ScrapePage(filtered, Some(100_000), Some(1_000))[k - 100_000] == m;
      assert m in ScrapePage(filtered, Some(100_000), Some(1_000));
    }
  }
}
