/** Builds a CSS path for a scraped element and decides when that path denotes exactly the element. */
module StableSelector {
  import opened Letters
  import opened Selectors
  import opened Sequences
  import opened Wrappers

  const STABLE_ATTRIBUTES := ["data-testid", "data-test", "data-qa", "data-cy", "aria-label", "name", "title"]

  predicate IsLineBreak(c: char) {
    c == '\r' || c == '\n' || c == 12 as char
  }

  predicate LineBreakFree(s: string) {
    forall c | c in s :: !IsLineBreak(c)
  }

  /** The value a quoted CSS string denotes after escaping: line breaks have become spaces. */
  function Quoted(s: string): string {
    seq(|s|, i requires 0 <= i < |s| => if IsLineBreak(s[i]) then ' ' else s[i])
  }

  function AttributeOf(e: Element, name: string): string {
    if name in e.attributes then e.attributes[name] else ""
  }

  // ---------------------------------------------------------------- stable classes

  predicate IsHexChar(c: char) {
    '0' <= c <= '9' || 'a' <= c <= 'f'
  }

  predicate IsWordChar(c: char) {
    '0' <= c <= '9' || 'a' <= c <= 'z' || c == '_' || c == '-'
  }

  predicate IsGenerated(lowered: string, prefix: string) {
    prefix <= lowered && |lowered| >= |prefix| + 5 && forall c | c in lowered[|prefix|..] :: IsWordChar(c)
  }

  /** Neither empty nor long nor the hash of a style compiler. */
  predicate IsStableClass(name: string) {
    var lowered := Lower(name);
    && 0 < |name| <= 80
    && !(|name| >= 8 && forall c | c in lowered :: IsHexChar(c))
    && !(exists prefix | prefix in ["css-", "sc-", "jsx-", "emotion-"] :: IsGenerated(lowered, prefix))
  }

  function StableClasses(e: Element): seq<string> {
    var stable := Filter(IsStableClass, e.classes);
    stable[..if |stable| < 2 then |stable| else 2]
  }

  // ---------------------------------------------------------------- one compound

  /** The children of `parent` called `tag` among the first `n` elements, in document order. */
  function ChildrenCalled(doc: Document, parent: nat, tag: string, n: nat): seq<nat>
    requires n <= |doc|
  {
    if n == 0 then []
    else
      var before := ChildrenCalled(doc, parent, tag, n - 1);
      if doc[n - 1].parent == Some(parent) && doc[n - 1].tag == tag then before + [n - 1] else before
  }

  function IndexOf(xs: seq<nat>, x: nat): int {
    if xs == [] then -1 else if xs[0] == x then 0
    else if IndexOf(xs[1..], x) < 0 then -1 else 1 + IndexOf(xs[1..], x)
  }

  function NthSelector(doc: Document, i: nat): Option<nat>
    requires i < |doc|
  {
    if doc[i].parent.None? then None
    else
      var same := ChildrenCalled(doc, doc[i].parent.value, Lower(doc[i].tag), |doc|);
      if |same| > 1 && IndexOf(same, i) >= 0 then Some(IndexOf(same, i) + 1) else None
  }

  function ByAttribute(e: Element, name: string): Compound {
    Compound(Lower(e.tag), Some(Attribute(name, Quoted(AttributeOf(e, name)))), [], None)
  }

  predicate HasId(e: Element) {
    AttributeOf(e, "id") != ""
  }

  function Segment(doc: Document, i: nat): Compound
    requires i < |doc|
  {
    if HasId(doc[i]) then ByAttribute(doc[i], "id")
    else Compound(Lower(doc[i].tag), None, StableClasses(doc[i]), NthSelector(doc, i))
  }

  // ---------------------------------------------------------------- the selector

  predicate Usable(value: string) {
    value != "" && |value| <= 500
  }

  /** The first stable attribute that singles the element out. */
  function UniqueAttribute(doc: Document, i: nat, names: seq<string>): (name: Option<string>)
    requires ValidDocument(doc) && i < |doc|
    ensures name.Some? ==>
              name.value in names && Usable(AttributeOf(doc[i], name.value)) && IsUnique(doc, [ByAttribute(doc[i], name.value)])
  {
    if names == [] then None
    else if Usable(AttributeOf(doc[i], names[0])) && IsUnique(doc, [ByAttribute(doc[i], names[0])]) then Some(names[0])
    else UniqueAttribute(doc, i, names[1..])
  }

  /** Climbs until the path so far is unique, an id is met, the root is passed or ten segments are there. */
  function PathSelector(doc: Document, current: Option<nat>, depth: nat, below: Selector): Selector
    requires ValidDocument(doc) && (current.Some? ==> current.value < |doc|)
    decreases 10 - depth
  {
    if current.None? || depth >= 10 then below
    else
      var path := [Segment(doc, current.value)] + below;
      if HasId(doc[current.value]) || IsUnique(doc, path) then path
      else PathSelector(doc, doc[current.value].parent, depth + 1, path)
  }

  function SelectorFor(doc: Document, i: nat): Selector
    requires ValidDocument(doc) && i < |doc|
  {
    if HasId(doc[i]) && IsUnique(doc, [ByAttribute(doc[i], "id")]) then [ByAttribute(doc[i], "id")]
    else
      var name := UniqueAttribute(doc, i, STABLE_ATTRIBUTES);
      if name.Some? then [ByAttribute(doc[i], name.value)] else PathSelector(doc, Some(i), 0, [])
  }

  // ---------------------------------------------------------------- what a path says about the element

  /** The compound was made from this element. */
  predicate MadeFrom(doc: Document, i: nat, c: Compound)
    requires i < |doc|
  {
    && c.tag == Lower(doc[i].tag)
    && (c.attribute.Some? ==>
          && AttributeOf(doc[i], c.attribute.value.name) != ""
          && c.attribute.value.value == Quoted(AttributeOf(doc[i], c.attribute.value.name)))
    && (forall name | name in c.classes :: name in doc[i].classes)
    && (c.nth.Some? ==> c.nth.value == NthOfType(doc, i))
  }

  /** The path was made from the element and its ancestors. */
  predicate Describes(doc: Document, i: nat, s: Selector)
    requires ValidDocument(doc) && i < |doc| && s != []
    decreases |s|
  {
    && MadeFrom(doc, i, s[|s| - 1])
    && (|s| > 1 ==> doc[i].parent.Some? && Describes(doc, doc[i].parent.value, s[..|s| - 1]))
  }

  /** Tag names are in lower case already and no quoted value holds a line break. */
  predicate Undamaged(doc: Document, i: nat, s: Selector)
    requires ValidDocument(doc) && i < |doc| && s != []
    decreases |s|
  {
    && Lower(doc[i].tag) == doc[i].tag
    && (s[|s| - 1].attribute.Some? ==> LineBreakFree(AttributeOf(doc[i], s[|s| - 1].attribute.value.name)))
    && (|s| > 1 ==> doc[i].parent.Some? && Undamaged(doc, doc[i].parent.value, s[..|s| - 1]))
  }

  lemma QuotedIsExact(s: string)
    ensures Quoted(s) == s <==> LineBreakFree(s)
  {
    if !LineBreakFree(s) {
      var c :| c in s && IsLineBreak(c);
      var i :| 0 <= i < |s| && s[i] == c;
      assert Quoted(s)[i] == ' ';
    }
  }

  lemma {:induction false} DescribedMatches(doc: Document, i: nat, s: Selector)
    requires ValidDocument(doc) && i < |doc| && s != [] && Describes(doc, i, s)
    ensures Matches(doc, i, s) <==> Undamaged(doc, i, s)
    decreases |s|
  {
    hide Quoted, Lower, NthOfType, LineBreakFree;
    if s[|s| - 1].attribute.Some? {
      QuotedIsExact(AttributeOf(doc[i], s[|s| - 1].attribute.value.name));
    }
    if |s| > 1 {
      DescribedMatches(doc, doc[i].parent.value, s[..|s| - 1]);
    }
  }

  // ---------------------------------------------------------------- positions among siblings

  predicate IsChildCalled(doc: Document, parent: nat, tag: string, j: nat)
    requires j < |doc|
  {
    doc[j].parent == Some(parent) && doc[j].tag == tag
  }

  function Called(doc: Document, parent: nat, tag: string, n: nat): set<int>
    requires n <= |doc|
  {
    set j | 0 <= j < n && IsChildCalled(doc, parent, tag, j)
  }

  lemma CalledStep(doc: Document, parent: nat, tag: string, n: nat)
    requires n < |doc|
    ensures |Called(doc, parent, tag, n + 1)|
            == |Called(doc, parent, tag, n)| + if IsChildCalled(doc, parent, tag, n) then 1 else 0
  {
    hide IsChildCalled;
    if IsChildCalled(doc, parent, tag, n) {
      assert Called(doc, parent, tag, n + 1) == Called(doc, parent, tag, n) + {n};
    } else {
      assert Called(doc, parent, tag, n + 1) == Called(doc, parent, tag, n);
    }
  }

  lemma {:induction false} ChildrenAreCounted(doc: Document, parent: nat, tag: string, n: nat)
    requires n <= |doc|
    ensures |ChildrenCalled(doc, parent, tag, n)| == |Called(doc, parent, tag, n)|
  {
    if n == 0 {
      assert Called(doc, parent, tag, n) == {};
    } else {
      ChildrenAreCounted(doc, parent, tag, n - 1);
      CalledStep(doc, parent, tag, n - 1);
      hide Called;
    }
  }

  lemma {:induction false} ChildrenMembers(doc: Document, parent: nat, tag: string, n: nat)
    requires n <= |doc|
    ensures forall j: nat :: j in ChildrenCalled(doc, parent, tag, n) <==>
                        j < n && doc[j].parent == Some(parent) && doc[j].tag == tag
  {
    if n > 0 {
      ChildrenMembers(doc, parent, tag, n - 1);
    }
  }

  lemma {:induction false} ChildrenPrefix(doc: Document, parent: nat, tag: string, m: nat, n: nat)
    requires m <= n <= |doc|
    ensures ChildrenCalled(doc, parent, tag, m) <= ChildrenCalled(doc, parent, tag, n)
  {
    if m < n {
      ChildrenPrefix(doc, parent, tag, m, n - 1);
    }
  }

  lemma {:induction false} IndexAfterPrefix(before: seq<nat>, x: nat, after: seq<nat>)
    requires x !in before
    ensures IndexOf(before + [x] + after, x) == |before|
  {
    if before != [] {
      assert (before + [x] + after)[1..] == before[1..] + [x] + after;
      IndexAfterPrefix(before[1..], x, after);
    }
  }

  lemma {:induction false} IndexOfMissing(xs: seq<nat>, x: nat)
    ensures IndexOf(xs, x) >= 0 <==> x in xs
  {
    if xs != [] {
      IndexOfMissing(xs[1..], x);
    }
  }

  /** The position among the children found by tag is the position `:nth-of-type` counts. */
  lemma PositionIsNthOfType(doc: Document, i: nat)
    requires i < |doc| && doc[i].parent.Some?
    ensures var same := ChildrenCalled(doc, doc[i].parent.value, doc[i].tag, |doc|);
            IndexOf(same, i) + 1 == NthOfType(doc, i)
  {
    var parent, tag := doc[i].parent.value, doc[i].tag;
    var before, upTo, same := ChildrenCalled(doc, parent, tag, i), ChildrenCalled(doc, parent, tag, i + 1),
      ChildrenCalled(doc, parent, tag, |doc|);
    ChildrenPrefix(doc, parent, tag, i + 1, |doc|);
    ChildrenMembers(doc, parent, tag, i);
    assert upTo == before + [i] && same == upTo + same[|upTo|..];
    IndexAfterPrefix(before, i, same[|upTo|..]);
    ChildrenAreCounted(doc, parent, tag, i);
    assert forall j: nat | j < i :: IsChildCalled(doc, parent, tag, j) <==> SameType(doc, i, j);
    assert Called(doc, parent, tag, i) == (set j | 0 <= j < i && SameType(doc, i, j)) by {
      hide IsChildCalled, SameType;
    }
  }

  lemma NthSelectorIsRight(doc: Document, i: nat)
    requires i < |doc|
    ensures NthSelector(doc, i).Some? ==> NthSelector(doc, i).value == NthOfType(doc, i)
  {
    if doc[i].parent.Some? {
      var same := ChildrenCalled(doc, doc[i].parent.value, Lower(doc[i].tag), |doc|);
      ChildrenMembers(doc, doc[i].parent.value, Lower(doc[i].tag), |doc|);
      IndexOfMissing(same, i);
      if i in same {
        PositionIsNthOfType(doc, i);
      }
    }
  }

  lemma SegmentIsMadeFrom(doc: Document, i: nat)
    requires i < |doc|
    ensures MadeFrom(doc, i, Segment(doc, i))
  {
    hide IsStableClass, Quoted, Lower, NthOfType;
    NthSelectorIsRight(doc, i);
    FilterMembers(IsStableClass, doc[i].classes);
  }

  // ---------------------------------------------------------------- paths as segments

  /** How many elements there are from the element up to its root. */
  function PathLength(doc: Document, i: nat): nat
    requires ValidDocument(doc) && i < |doc|
  {
    if doc[i].parent.None? then 1 else 1 + PathLength(doc, doc[i].parent.value)
  }

  /** The element `depth` steps up. */
  function Ancestor(doc: Document, i: nat, depth: nat): (r: nat)
    requires ValidDocument(doc) && i < |doc| && depth < PathLength(doc, i)
    ensures r < |doc| && PathLength(doc, r) == PathLength(doc, i) - depth
    decreases depth
  {
    if depth == 0 then i else Ancestor(doc, doc[i].parent.value, depth - 1)
  }

  /** The segments of the element and its nearest ancestors, `n` in all. */
  function Segments(doc: Document, i: nat, n: nat): (r: Selector)
    requires ValidDocument(doc) && i < |doc| && n <= PathLength(doc, i)
    ensures |r| == n
    decreases n
  {
    if n == 0 then []
    else if n == 1 then [Segment(doc, i)]
    else Segments(doc, doc[i].parent.value, n - 1) + [Segment(doc, i)]
  }

  lemma {:induction false} SegmentsExtend(doc: Document, i: nat, n: nat)
    requires ValidDocument(doc) && i < |doc| && n < PathLength(doc, i)
    ensures [Segment(doc, Ancestor(doc, i, n))] + Segments(doc, i, n) == Segments(doc, i, n + 1)
    decreases n
  {
    hide Segment;
    if n > 0 {
      SegmentsExtend(doc, doc[i].parent.value, n - 1);
      if n == 1 {
        assert Segments(doc, doc[i].parent.value, 0) + [Segment(doc, i)] == Segments(doc, i, 1);
      }
      assert [Segment(doc, Ancestor(doc, i, n))] + Segments(doc, i, n)
          == ([Segment(doc, Ancestor(doc, i, n))] + Segments(doc, doc[i].parent.value, n - 1)) + [Segment(doc, i)];
    }
  }

  lemma {:induction false} SegmentsDescribe(doc: Document, i: nat, n: nat)
    requires ValidDocument(doc) && i < |doc| && 0 < n <= PathLength(doc, i)
    ensures Describes(doc, i, Segments(doc, i, n))
    decreases n
  {
    hide MadeFrom, Segment;
    SegmentIsMadeFrom(doc, i);
    if n > 1 {
      SegmentsDescribe(doc, doc[i].parent.value, n - 1);
      assert Segments(doc, i, n)[..n - 1] == Segments(doc, doc[i].parent.value, n - 1);
    }
  }

  /** None of the first `n` elements on the path has an id. */
  predicate IdFree(doc: Document, i: nat, n: nat)
    requires ValidDocument(doc) && i < |doc| && n <= PathLength(doc, i)
    decreases n
  {
    n == 0 || (!HasId(doc[i]) && (n == 1 || IdFree(doc, doc[i].parent.value, n - 1)))
  }

  lemma {:induction false} IdFreeExtends(doc: Document, i: nat, n: nat)
    requires ValidDocument(doc) && i < |doc| && n < PathLength(doc, i)
    requires IdFree(doc, i, n) && !HasId(doc[Ancestor(doc, i, n)])
    ensures IdFree(doc, i, n + 1)
    decreases n
  {
    hide HasId;
    if n > 0 {
      IdFreeExtends(doc, doc[i].parent.value, n - 1);
    }
  }

  lemma {:induction false} AncestorStep(doc: Document, i: nat, depth: nat)
    requires ValidDocument(doc) && i < |doc| && depth + 1 < PathLength(doc, i)
    ensures Some(Ancestor(doc, i, depth + 1)) == doc[Ancestor(doc, i, depth)].parent
    decreases depth
  {
    if depth > 0 {
      AncestorStep(doc, doc[i].parent.value, depth - 1);
    }
  }

  /** How many segments the climb ends with, when it has gone past `n`. */
  function ClimbEnd(doc: Document, i: nat, n: nat): (m: nat)
    requires ValidDocument(doc) && i < |doc| && n < PathLength(doc, i) && n < 10
    ensures n < m <= PathLength(doc, i) && m <= 10
    decreases 10 - n
  {
    if HasId(doc[Ancestor(doc, i, n)]) || IsUnique(doc, Segments(doc, i, n + 1)) || n + 1 == PathLength(doc, i) || n + 1 == 10
      then n + 1
    else ClimbEnd(doc, i, n + 1)
  }

  /** Where the climb stops: no id below the last segment, and a reason for stopping. */
  lemma {:induction false} PathStops(doc: Document, i: nat, n: nat)
    requires ValidDocument(doc) && i < |doc| && n < PathLength(doc, i) && n < 10
    requires IdFree(doc, i, n)
    ensures var m := ClimbEnd(doc, i, n);
            && PathSelector(doc, Some(Ancestor(doc, i, n)), n, Segments(doc, i, n)) == Segments(doc, i, m)
            && IdFree(doc, i, m - 1)
            && (HasId(doc[Ancestor(doc, i, m - 1)]) || IsUnique(doc, Segments(doc, i, m)) || m == PathLength(doc, i) || m == 10)
    decreases 10 - n
  {
    hide HasId, IsUnique, Segment, Segments, IdFree;
    SegmentsExtend(doc, i, n);
    var top := Ancestor(doc, i, n);
    if HasId(doc[top]) || IsUnique(doc, Segments(doc, i, n + 1)) {
    } else if doc[top].parent.None? {
      assert PathLength(doc, top) == 1;
    } else if n + 1 < 10 {
      assert PathLength(doc, top) > 1;
      AncestorStep(doc, i, n);
      IdFreeExtends(doc, i, n);
      PathStops(doc, i, n + 1);
    }
  }

  lemma ClimbStops(doc: Document, i: nat) returns (m: nat)
    requires ValidDocument(doc) && i < |doc|
    ensures m == ClimbEnd(doc, i, 0) && PathSelector(doc, Some(i), 0, []) == Segments(doc, i, m)
    ensures IdFree(doc, i, m - 1)
    ensures HasId(doc[Ancestor(doc, i, m - 1)]) || IsUnique(doc, Segments(doc, i, m)) || m == PathLength(doc, i) || m == 10
  {
    hide Segment, IsUnique, HasId, PathSelector, ClimbEnd;
    assert IdFree(doc, i, 0) && Ancestor(doc, i, 0) == i && Segments(doc, i, 0) == [];
    hide *;
    m := ClimbEnd(doc, i, 0);
    PathStops(doc, i, 0);
  }

  lemma SelectorDescribes(doc: Document, i: nat)
    requires ValidDocument(doc) && i < |doc|
    ensures SelectorFor(doc, i) != [] && Describes(doc, i, SelectorFor(doc, i))
  {
    hide Quoted, PathSelector, IsUnique, Segment;
    if HasId(doc[i]) && IsUnique(doc, [ByAttribute(doc[i], "id")]) {
    } else if UniqueAttribute(doc, i, STABLE_ATTRIBUTES).Some? {
    } else {
      var m := ClimbStops(doc, i);
      SegmentsDescribe(doc, i, m);
    }
  }

  // ---------------------------------------------------------------- soundness

  predicate PlainTag(e: Element) {
    Lower(e.tag) == e.tag
  }

  predicate PlainAttribute(e: Element, name: string) {
    PlainTag(e) && LineBreakFree(AttributeOf(e, name))
  }

  /** The tags and ids of the first `n` elements on the path. */
  predicate PlainClimb(doc: Document, i: nat, n: nat)
    requires ValidDocument(doc) && i < |doc| && 0 < n <= PathLength(doc, i)
    decreases n
  {
    && (if HasId(doc[i]) then PlainAttribute(doc[i], "id") else PlainTag(doc[i]))
    && (n > 1 ==> PlainClimb(doc, doc[i].parent.value, n - 1))
  }

  /** What the selector names is written unchanged: tags are in lower case already and quoted values hold no line
      break. It names the element's id or first stable attribute, where that singles it out, or else the tags and ids
      of the climb. */
  predicate WrittenUnchanged(doc: Document, i: nat)
    requires ValidDocument(doc) && i < |doc|
  {
    if HasId(doc[i]) && IsUnique(doc, [ByAttribute(doc[i], "id")]) then PlainAttribute(doc[i], "id")
    else
      var name := UniqueAttribute(doc, i, STABLE_ATTRIBUTES);
      if name.Some? then PlainAttribute(doc[i], name.value) else PlainClimb(doc, i, ClimbEnd(doc, i, 0))
  }

  lemma {:induction false} SegmentsUndamaged(doc: Document, i: nat, n: nat)
    requires ValidDocument(doc) && i < |doc| && 0 < n <= PathLength(doc, i)
    ensures Undamaged(doc, i, Segments(doc, i, n)) <==> PlainClimb(doc, i, n)
    decreases n
  {
    hide Lower, Quoted, LineBreakFree, StableClasses, NthSelector, MatchesCompound;
    if n > 1 {
      SegmentsUndamaged(doc, doc[i].parent.value, n - 1);
      assert Segments(doc, i, n)[..n - 1] == Segments(doc, doc[i].parent.value, n - 1);
    }
  }

  lemma UndamagedIsWrittenUnchanged(doc: Document, i: nat)
    requires ValidDocument(doc) && i < |doc|
    ensures SelectorFor(doc, i) != []
    ensures Undamaged(doc, i, SelectorFor(doc, i)) <==> WrittenUnchanged(doc, i)
  {
    hide Lower, LineBreakFree, Quoted, PathSelector, IsUnique, Segments, AttributeOf, PlainClimb;
    if HasId(doc[i]) && IsUnique(doc, [ByAttribute(doc[i], "id")]) {
    } else if UniqueAttribute(doc, i, STABLE_ATTRIBUTES).Some? {
    } else {
      var m := ClimbStops(doc, i);
      SegmentsUndamaged(doc, i, m);
    }
  }

  /** A selector that is unique denotes the element exactly when what it names is written unchanged. */
  lemma UniqueSelectorIsSound(doc: Document, i: nat)
    requires ValidDocument(doc) && i < |doc|
    ensures SelectorFor(doc, i) != []
    ensures IsUnique(doc, SelectorFor(doc, i)) ==>
              (Selected(doc, SelectorFor(doc, i)) == {i} <==> WrittenUnchanged(doc, i))
  {
    var s := SelectorFor(doc, i);
    SelectorDescribes(doc, i);
    UndamagedIsWrittenUnchanged(doc, i);
    hide SelectorFor, Describes, Undamaged, WrittenUnchanged;
    DescribedMatches(doc, i, s);
    if IsUnique(doc, s) {
      SingletonIsUnique(doc, s, i);
    }
  }

  /** The id of the first element holds a line break: the unique selector built for it denotes the second. */
  lemma LineBreakSelectsAnother()
    ensures var doc := [Element("div", map["id" := "a\nb"], [], None), Element("div", map["id" := "a b"], [], None)];
            && ValidDocument(doc)
            && IsUnique(doc, SelectorFor(doc, 0))
            && Selected(doc, SelectorFor(doc, 0)) == {1}
  {
    var doc := [Element("div", map["id" := "a\nb"], [], None), Element("div", map["id" := "a b"], [], None)];
    var s := [ByAttribute(doc[0], "id")];
    assert Quoted("a\nb") == "a b";
    assert Lower("div") == "div";
    assert Matches(doc, 1, s) && !Matches(doc, 0, s);
    assert Selected(doc, s) == {1};
  }

  // ---------------------------------------------------------------- completeness

  predicate OnlyMatch(doc: Document, c: Compound, i: nat) {
    forall b: nat | b < |doc| && MatchesCompound(doc, b, c) :: b == i
  }

  /** Climbing at most `n` elements leads to something that occurs once: the first id on the way, under its tag, or
      else the tag of the root. */
  predicate Anchored(doc: Document, i: nat, n: nat)
    requires ValidDocument(doc) && i < |doc|
    decreases n
  {
    && n > 0
    && if HasId(doc[i]) then OnlyMatch(doc, ByAttribute(doc[i], "id"), i)
       else if doc[i].parent.Some? then Anchored(doc, doc[i].parent.value, n - 1)
       else forall b: nat | b < |doc| && doc[b].tag == doc[i].tag :: b == i
  }

  /** Among its siblings, an element without an id is the only one its segment matches. */
  lemma SegmentPinsSibling(doc: Document, i: nat, b: nat)
    requires ValidDocument(doc) && i < |doc| && b < |doc|
    requires Lower(doc[i].tag) == doc[i].tag && !HasId(doc[i])
    requires doc[i].parent.Some? && doc[b].parent == doc[i].parent
    requires MatchesCompound(doc, b, Segment(doc, i))
    ensures b == i
  {
    hide HasId, StableClasses;
    var same := ChildrenCalled(doc, doc[i].parent.value, doc[i].tag, |doc|);
    ChildrenMembers(doc, doc[i].parent.value, doc[i].tag, |doc|);
    assert i in same && b in same;
    IndexOfMissing(same, i);
    PositionIsNthOfType(doc, i);
    PositionIsNthOfType(doc, b);
    if |same| > 1 {
      SameIndex(same, i, b);
    }
  }

  lemma {:induction false} SameIndex(xs: seq<nat>, x: nat, y: nat)
    requires x in xs && IndexOf(xs, x) == IndexOf(xs, y)
    ensures x == y
  {
    IndexOfMissing(xs, x);
    if xs[0] != x {
      IndexOfMissing(xs[1..], x);
      SameIndex(xs[1..], x, y);
    }
  }

  /** Every match of the path is the element, once its top segment matches nothing but the top element. */
  lemma {:induction false} SegmentsPin(doc: Document, i: nat, n: nat, b: nat)
    requires ValidDocument(doc) && i < |doc| && 0 < n <= PathLength(doc, i) && PlainClimb(doc, i, n) && b < |doc|
    requires IdFree(doc, i, n - 1)
    requires OnlyMatch(doc, Segment(doc, Ancestor(doc, i, n - 1)), Ancestor(doc, i, n - 1))
    requires Matches(doc, b, Segments(doc, i, n))
    ensures b == i
    decreases n
  {
    hide HasId, MatchesCompound, Segment, Lower;
    if n > 1 {
      var p := doc[i].parent.value;
      assert Segments(doc, i, n)[..n - 1] == Segments(doc, p, n - 1);
      assert Ancestor(doc, i, n - 1) == Ancestor(doc, p, n - 2);
      SegmentsPin(doc, p, n - 1, doc[b].parent.value);
      SegmentPinsSibling(doc, i, b);
    }
  }

  /** Past elements without an id, the rest of the climb is as anchored and as plain as the whole. */
  lemma {:induction false} TopOfClimb(doc: Document, i: nat, n: nat, m: nat)
    requires ValidDocument(doc) && i < |doc| && 0 < m <= PathLength(doc, i) && m <= n
    requires Anchored(doc, i, n) && IdFree(doc, i, m - 1) && PlainClimb(doc, i, m)
    ensures Anchored(doc, Ancestor(doc, i, m - 1), n - (m - 1)) && PlainTag(doc[Ancestor(doc, i, m - 1)])
    decreases m
  {
    hide HasId, OnlyMatch, Lower, AttributeOf;
    if m > 1 {
      TopOfClimb(doc, doc[i].parent.value, n - 1, m - 1);
    }
  }

  lemma AnchorIsPinned(doc: Document, top: nat, n: nat)
    requires ValidDocument(doc) && top < |doc| && Anchored(doc, top, n) && PlainTag(doc[top])
    requires HasId(doc[top]) || doc[top].parent.None?
    ensures OnlyMatch(doc, Segment(doc, top), top)
  {
    hide Quoted, StableClasses, NthSelector, ByAttribute;
  }

  /** The climb from an anchored element ends with a path that denotes the element alone, when its names are plain. */
  lemma ClimbIsExact(doc: Document, i: nat)
    requires ValidDocument(doc) && i < |doc| && Anchored(doc, i, 10) && PlainClimb(doc, i, ClimbEnd(doc, i, 0))
    ensures PathSelector(doc, Some(i), 0, []) != [] && Selected(doc, PathSelector(doc, Some(i), 0, [])) == {i}
  {
    hide PathSelector, Segment, MatchesCompound, IdFree, HasId, Anchored, PlainClimb, PlainTag, OnlyMatch, Describes, Undamaged,
      Matches, Segments, ClimbEnd;
    var m := ClimbStops(doc, i);
    var s := Segments(doc, i, m);
    SegmentsUndamaged(doc, i, m);
    SegmentsDescribe(doc, i, m);
    DescribedMatches(doc, i, s);
    if IsUnique(doc, s) {
      SingletonIsUnique(doc, s, i);
    } else {
      TopOfClimb(doc, i, 10, m);
      EndOfClimb(doc, i, m);
      AnchorIsPinned(doc, Ancestor(doc, i, m - 1), 10 - (m - 1));
      forall b: nat | b < |doc| && Matches(doc, b, s) ensures b == i {
        SegmentsPin(doc, i, m, b);
      }
    }
  }

  /** A climb that ends for no other reason ends at the root. */
  lemma EndOfClimb(doc: Document, i: nat, m: nat)
    requires ValidDocument(doc) && i < |doc| && 0 < m <= PathLength(doc, i) && m <= 10
    requires Anchored(doc, Ancestor(doc, i, m - 1), 10 - (m - 1))
    requires HasId(doc[Ancestor(doc, i, m - 1)]) || m == PathLength(doc, i) || m == 10
    ensures HasId(doc[Ancestor(doc, i, m - 1)]) || doc[Ancestor(doc, i, m - 1)].parent.None?
  {
    hide HasId, OnlyMatch;
    var top := Ancestor(doc, i, m - 1);
    if doc[top].parent.Some? {
      assert PathLength(doc, top) >= 1 + PathLength(doc, doc[top].parent.value) >= 2;
      assert !Anchored(doc, doc[top].parent.value, 0);
    }
  }

  /** Without any condition, the selector denotes exactly the element when it is unique and what it names is written
      unchanged, and only then. */
  lemma SelectorIsExact(doc: Document, i: nat)
    requires ValidDocument(doc) && i < |doc|
    ensures SelectorFor(doc, i) != []
    ensures Selected(doc, SelectorFor(doc, i)) == {i} <==> IsUnique(doc, SelectorFor(doc, i)) && WrittenUnchanged(doc, i)
  {
    UniqueSelectorIsSound(doc, i);
    hide SelectorFor, WrittenUnchanged;
  }

  /** For an anchored element, one that has among its ten nearest an id that occurs once or a root whose tag does, a
      selector that denotes exactly the element is returned if and only if what it names is written unchanged. */
  lemma SelectorIsComplete(doc: Document, i: nat)
    requires ValidDocument(doc) && i < |doc| && Anchored(doc, i, 10)
    ensures SelectorFor(doc, i) != []
    ensures Selected(doc, SelectorFor(doc, i)) == {i} <==> WrittenUnchanged(doc, i)
  {
    SelectorIsExact(doc, i);
    hide IsUnique, PathSelector, Segments, PlainClimb, ClimbEnd, Anchored, ByAttribute, HasId, PlainAttribute;
    if HasId(doc[i]) && IsUnique(doc, [ByAttribute(doc[i], "id")]) {
    } else if UniqueAttribute(doc, i, STABLE_ATTRIBUTES).Some? {
    } else if WrittenUnchanged(doc, i) {
      ClimbIsExact(doc, i);
    }
  }
}
