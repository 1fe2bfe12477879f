/** The search tool's ranked matches, cut to a limit: the best match of every file first, then the rest. */
module TwoPassSelection {
  import opened Sequences
  import opened Sorting
  import opened Wrappers

  datatype Item = Item(id: string, path: Option<string>)

  function Key(item: Item): string {
    item.path.GetOr(item.id)
  }

  /** The first item of every key, in order. */
  function FirstPerKey(ranked: seq<Item>): seq<Item> {
    if ranked == [] then []
    else
      var init, last := ranked[..|ranked| - 1], ranked[|ranked| - 1];
      if HasKey(init, Key(last)) then FirstPerKey(init) else FirstPerKey(init) + [last]
  }

  /** The items that share no id with a first item, in order. */
  function Others(ranked: seq<Item>, firsts: seq<Item>): seq<Item> {
    Filter((e: Item) => !HasId(firsts, e.id), ranked)
  }

  predicate HasId(items: seq<Item>, id: string) {
    exists e | e in items :: e.id == id
  }

  function Cut<T>(xs: seq<T>, limit: int): (r: seq<T>)
    ensures r <= xs && (|xs| <= |r| || |r| == if limit < 1 then 1 else limit) && (|r| <= 1 || |r| <= limit)
  {
    var n := if limit < 1 then 1 else limit;
    if |xs| <= n then xs else xs[..n]
  }

  predicate HasKey(items: seq<Item>, key: string) {
    exists e | e in items :: Key(e) == key
  }

  method SelectTwoPass(ranked: seq<Item>, maxItems: int) returns (selected: seq<Item>)
    ensures selected == Cut(FirstPerKey(ranked) + Others(ranked, FirstPerKey(ranked)), maxItems)
  {
    var selectedIds, full;
    selected, selectedIds, full := FirstPass(ranked, maxItems);
    if !full {
      selected := SecondPass(ranked, maxItems, selected, selectedIds);
    }
  }

  /** The first pass: the best item per key, or as many of them as fit. */
  method FirstPass(ranked: seq<Item>, maxItems: int) returns (selected: seq<Item>, selectedIds: set<string>, full: bool)
    ensures forall id :: id in selectedIds <==> HasId(selected, id)
    ensures full ==> |selected| == (if maxItems < 1 then 1 else maxItems) && selected <= FirstPerKey(ranked)
    ensures !full ==> selected == FirstPerKey(ranked) && (|selected| < maxItems || ranked == [])
  {
    selected, selectedIds, full := [], {}, false;
    var seenPaths: set<string> := {};
    assert ranked[..|ranked|] == ranked && ranked[..0] == [];
    hide *;
    for i := 0 to |ranked|
      invariant |selected| < maxItems || selected == [] == ranked[..i]
      invariant FirstPassAt(ranked[..i], selected, selectedIds, seenPaths)
    {
      var item := ranked[i];
      assert ranked[..i + 1] == ranked[..i] + [item];
      FirstPassContinues(ranked[..i], selected, selectedIds, seenPaths, item);
      if Key(item) in seenPaths {
        continue;
      }
      selected := selected + [item];
      selectedIds := selectedIds + {item.id};
      seenPaths := seenPaths + {Key(item)};
      if |selected| >= maxItems {
        FirstPerKeyPrefix(ranked, i + 1);
        return selected, selectedIds, true;
      }
    }
  }

  /** Where the first pass stands after `items`. */
  ghost predicate FirstPassAt(items: seq<Item>, selected: seq<Item>, ids: set<string>, keys: set<string>) {
    && selected == FirstPerKey(items)
    && (forall id :: id in ids <==> HasId(selected, id))
    && (forall key :: key in keys <==> HasKey(items, key))
  }

  lemma FirstPassContinues(items: seq<Item>, selected: seq<Item>, ids: set<string>, keys: set<string>, item: Item)
    requires FirstPassAt(items, selected, ids, keys)
    ensures Key(item) in keys ==> FirstPassAt(items + [item], selected, ids, keys)
    ensures Key(item) !in keys ==> FirstPassAt(items + [item], selected + [item], ids + {item.id}, keys + {Key(item)})
  {
    HasIdAppend(selected, item);
    HasKeyAppend(items, item);
    FirstPerKeyAppend(items, item);
    hide FirstPerKey, HasId, HasKey;
  }

  /** The second pass: what shares no id with a first item, as far as it fits. */
  method SecondPass(ranked: seq<Item>, maxItems: int, firsts: seq<Item>, selectedIds: set<string>)
    returns (selected: seq<Item>)
    requires |firsts| < maxItems || (ranked == [] && firsts == [])
    requires forall id :: id in selectedIds <==> HasId(firsts, id)
    ensures selected == Cut(firsts + Others(ranked, firsts), maxItems)
  {
    selected := firsts;
    ghost var isOther := (e: Item) => !HasId(firsts, e.id);
    assert ranked[..|ranked|] == ranked;
    for i := 0 to |ranked|
      invariant |selected| < maxItems || ranked == []
      invariant selected == firsts + Filter(isOther, ranked[..i])
    {
      hide Filter, HasId;
      var item := ranked[i];
      assert ranked[..i + 1] == ranked[..i] + [item];
      FilterAppend(isOther, ranked[..i], item);
      if item.id in selectedIds {
        continue;
      }
      selected := selected + [item];
      if |selected| >= maxItems {
        FilterPrefix(isOther, ranked, i + 1);
        assert selected == (firsts + Filter(isOther, ranked))[..maxItems];
        return;
      }
    }
  }

  lemma HasKeyAppend(items: seq<Item>, item: Item)
    ensures forall key :: HasKey(items + [item], key) <==> HasKey(items, key) || key == Key(item)
  {
    assert item in items + [item];
    forall key ensures HasKey(items + [item], key) <==> HasKey(items, key) || key == Key(item) {
      if HasKey(items, key) {
        var e :| e in items && Key(e) == key;
        assert e in items + [item];
      }
    }
  }

  lemma FirstPerKeyAppend(items: seq<Item>, item: Item)
    ensures FirstPerKey(items + [item])
            == if HasKey(items, Key(item)) then FirstPerKey(items) else FirstPerKey(items) + [item]
  {
    assert (items + [item])[..|items|] == items;
  }

  lemma HasIdAppend(items: seq<Item>, item: Item)
    ensures forall id :: HasId(items + [item], id) <==> HasId(items, id) || id == item.id
  {
    assert item in items + [item];
    forall id ensures HasId(items + [item], id) <==> HasId(items, id) || id == item.id {
      if HasId(items, id) {
        var e :| e in items && e.id == id;
        assert e in items + [item];
      }
    }
  }

  lemma {:induction false} FirstPerKeyPrefix(ranked: seq<Item>, i: nat)
    requires i <= |ranked|
    ensures FirstPerKey(ranked[..i]) <= FirstPerKey(ranked)
    decreases |ranked|
  {
    if i < |ranked| {
      FirstPerKeyPrefix(ranked[..|ranked| - 1], i);
      assert ranked[..|ranked| - 1][..i] == ranked[..i];
    } else {
      assert ranked[..i] == ranked;
    }
  }

  lemma {:induction false} FilterPrefix<T>(keep: T -> bool, xs: seq<T>, i: nat)
    requires i <= |xs|
    ensures Filter(keep, xs[..i]) <= Filter(keep, xs)
    decreases |xs|
  {
    if i < |xs| {
      FilterPrefix(keep, xs[..|xs| - 1], i);
      assert xs[..|xs| - 1][..i] == xs[..i];
    } else {
      assert xs[..i] == xs;
    }
  }

  // ---------------------------------------------------------------- what the selection is

  ghost predicate DistinctIds(items: seq<Item>) {
    forall i, j | 0 <= i < j < |items| :: items[i].id != items[j].id
  }

  lemma {:induction false} FirstPerKeyMeaning(ranked: seq<Item>)
    ensures forall e | e in FirstPerKey(ranked) :: e in ranked
    ensures forall key :: HasKey(FirstPerKey(ranked), key) <==> HasKey(ranked, key)
    ensures DistinctKeys(FirstPerKey(ranked))
  {
    if ranked != [] {
      var init, last := ranked[..|ranked| - 1], ranked[|ranked| - 1];
      FirstPerKeyMeaning(init);
      assert ranked == init + [last];
      HasKeyAppend(init, last);
      HasKeyAppend(FirstPerKey(init), last);
      if !HasKey(init, Key(last)) {
        var firsts := FirstPerKey(init);
        forall i | 0 <= i < |firsts| ensures Key(firsts[i]) != Key(last) {
          assert firsts[i] in firsts;
        }
      }
    }
  }

  ghost predicate DistinctKeys(items: seq<Item>) {
    forall i, j | 0 <= i < j < |items| :: Key(items[i]) != Key(items[j])
  }

  // ---------------------------------------------------------------- which items, and in which order

  /** Both are of one file; an item without a path stands for a file that is called by its id. */
  predicate SameFile(a: Item, b: Item) {
    match (a.path, b.path)
    case (Some(p), Some(q)) => p == q
    case (Some(p), None) => p == b.id
    case (None, Some(q)) => a.id == q
    case (None, None) => a.id == b.id
  }

  /** No better match is of the same file. */
  predicate IsFirst(ranked: seq<Item>, k: nat)
    requires k < |ranked|
  {
    forall j | 0 <= j < k :: !SameFile(ranked[j], ranked[k])
  }

  /** The items at these places, in order, are exactly those that are the best of their file. */
  ghost predicate AreFirsts(ranked: seq<Item>, places: seq<nat>) {
    && (forall i, j | 0 <= i < j < |places| :: places[i] < places[j])
    && (forall i | 0 <= i < |places| :: places[i] < |ranked|)
    && (forall k | 0 <= k < |ranked| :: k in places <==> IsFirst(ranked, k))
  }

  lemma LastIsFirst(init: seq<Item>, last: Item)
    ensures IsFirst(init + [last], |init|) <==> !HasKey(init, Key(last))
    ensures forall k | 0 <= k < |init| :: IsFirst(init + [last], k) <==> IsFirst(init, k)
  {
    var all := init + [last];
    forall k | 0 <= k < |init| ensures IsFirst(all, k) <==> IsFirst(init, k) {
      assert forall j | 0 <= j <= k :: all[j] == init[j];
    }
    assert forall j | 0 <= j < |init| :: SameFile(all[j], last) <==> Key(init[j]) == Key(last);
    if HasKey(init, Key(last)) {
      var e :| e in init && Key(e) == Key(last);
      var j :| 0 <= j < |init| && init[j] == e;
      assert SameFile(all[j], all[|init|]);
    }
  }

  lemma FirstsOfOneMore(init: seq<Item>, last: Item, before: seq<nat>)
    requires AreFirsts(init, before)
    ensures AreFirsts(init + [last], if HasKey(init, Key(last)) then before else before + [|init|])
  {
    LastIsFirst(init, last);
    hide HasKey, IsFirst;
    var places := if HasKey(init, Key(last)) then before else before + [|init|];
    forall k | 0 <= k <= |init| ensures k in places <==> IsFirst(init + [last], k) {
      assert k in before ==> k < |init|;
      assert k < |init| ==> (k in before <==> IsFirst(init, k));
    }
  }

  lemma AtOneMore(init: seq<Item>, last: Item, places: seq<nat>)
    requires forall i | 0 <= i < |places| :: places[i] < |init|
    ensures At(init + [last], places) == At(init, places)
    ensures At(init + [last], places + [|init|]) == At(init, places) + [last]
  {
  }

  lemma {:induction false} FirstsAreTheBest(ranked: seq<Item>) returns (places: seq<nat>)
    ensures AreFirsts(ranked, places) && FirstPerKey(ranked) == At(ranked, places)
  {
    if ranked == [] {
      places := [];
    } else {
      var n := |ranked| - 1;
      var init, last := ranked[..n], ranked[n];
      var before := FirstsAreTheBest(init);
      assert init + [last] == ranked;
      hide FirstPerKey, HasKey, IsFirst;
      AtOneMore(init, last, before);
      hide AreFirsts, At;
      FirstsOfOneMore(init, last, before);
      FirstPerKeyAppend(init, last);
      places := if HasKey(init, Key(last)) then before else before + [n];
    }
  }

  /** The selection is the best items of their files in rank order, then the items that share no id with one of those in
      rank order, cut to the limit. */
  lemma SelectionIsExact(ranked: seq<Item>, maxItems: int) returns (firsts: seq<nat>, others: seq<nat>)
    ensures AreFirsts(ranked, firsts)
    ensures forall i, j | 0 <= i < j < |others| :: others[i] < others[j] < |ranked|
    ensures forall i | 0 <= i < |others| :: others[i] < |ranked|
    ensures forall k | 0 <= k < |ranked| :: k in others <==> forall i | 0 <= i < |firsts| :: ranked[firsts[i]].id != ranked[k].id
    ensures Cut(FirstPerKey(ranked) + Others(ranked, FirstPerKey(ranked)), maxItems)
            == Cut(At(ranked, firsts) + At(ranked, others), maxItems)
  {
    firsts := FirstsAreTheBest(ranked);
    var best := At(ranked, firsts);
    var isOther := (e: Item) => !HasId(best, e.id);
    others := FilterIsExact(isOther, ranked);
    hide FirstPerKey, Filter, Cut;
    forall k | 0 <= k < |ranked|
      ensures k in others <==> forall i | 0 <= i < |firsts| :: ranked[firsts[i]].id != ranked[k].id
    {
      assert k in others <==> isOther(ranked[k]);
      assert forall i | 0 <= i < |firsts| :: best[i] == ranked[firsts[i]] && best[i] in best;
      if HasId(best, ranked[k].id) {
        var e :| e in best && e.id == ranked[k].id;
        var i :| 0 <= i < |best| && best[i] == e;
        assert ranked[firsts[i]].id == ranked[k].id;
      }
    }
  }

  /** No file is shown twice before every file is shown: unless the limit cut the first items themselves, every key of
      the ranking is in the selection; and what is cut are first items with keys of their own. */
  lemma EveryFileComesFirst(ranked: seq<Item>, maxItems: int)
    requires maxItems >= 1
    ensures var selected := Cut(FirstPerKey(ranked) + Others(ranked, FirstPerKey(ranked)), maxItems);
            && |selected| <= maxItems
            && (DistinctKeys(selected) || forall key :: HasKey(ranked, key) <==> HasKey(selected, key))
  {
    var firsts := FirstPerKey(ranked);
    var rest := Others(ranked, firsts);
    var selected := Cut(firsts + rest, maxItems);
    FirstPerKeyMeaning(ranked);
    FilterMembers((e: Item) => !HasId(firsts, e.id), ranked);
    hide FirstPerKey, HasId, Filter;
    if |firsts| >= maxItems {
      assert (firsts + rest)[..maxItems] == firsts[..maxItems];
      assert selected == (firsts + rest)[..maxItems];
      assert selected == firsts[..maxItems];
    } else {
      assert firsts == selected[..|firsts|];
      forall key ensures HasKey(ranked, key) <==> HasKey(selected, key) {
        if HasKey(ranked, key) {
          var e :| e in firsts && Key(e) == key;
          assert e in selected;
        }
        if HasKey(selected, key) {
          var e :| e in selected && Key(e) == key;
          assert e in firsts + rest;
          assert e in ranked;
        }
      }
    }
  }

  /** With distinct ids nothing is lost and nothing comes twice: uncut, the selection is a permutation of the ranking. */
  lemma SelectionIsAPermutation(ranked: seq<Item>)
    requires DistinctIds(ranked)
    ensures multiset(FirstPerKey(ranked) + Others(ranked, FirstPerKey(ranked))) == multiset(ranked)
  {
    var firsts := FirstPerKey(ranked);
    var isOther := (e: Item) => !HasId(firsts, e.id);
    var rest := Others(ranked, firsts);
    var all := firsts + rest;
    FirstPerKeyMeaning(ranked);
    FilterMembers(isOther, ranked);
    assert NoDuplicates(ranked);
    FilterHasNoDuplicates(isOther, ranked);
    hide FirstPerKey, Filter;
    assert NoDuplicates(all) by {
      FirstsAndOthersDiffer(firsts, rest);
    }
    forall e ensures e in all <==> e in ranked {
      if e in ranked && HasId(firsts, e.id) {
        var f :| f in firsts && f.id == e.id;
      }
    }
    SameMembersSameMultiset(all, ranked);
  }

  lemma FirstsAndOthersDiffer(firsts: seq<Item>, rest: seq<Item>)
    requires DistinctKeys(firsts) && NoDuplicates(rest)
    requires forall e | e in rest :: !HasId(firsts, e.id)
    ensures NoDuplicates(firsts + rest)
  {
    var all := firsts + rest;
    forall i, j | 0 <= i < j < |firsts| ensures firsts[i] != firsts[j] {
      assert Key(firsts[i]) != Key(firsts[j]);
    }
    forall i, j | 0 <= i < |firsts| && 0 <= j < |rest| ensures firsts[i] != rest[j] {
      assert firsts[i] in firsts && rest[j] in rest;
      assert HasId(firsts, firsts[i].id);
    }
  }

}
