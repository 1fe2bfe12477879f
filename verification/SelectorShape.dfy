/** Which selector an element gets: its id, its first telling attribute, or a path whose every step is spelled out. */
module SelectorShape {
  import opened Letters
  import opened Selectors
  import opened Sequences
  import opened StableSelector
  import opened Wrappers

  // ---------------------------------------------------------------- names

  /** A hash: at least eight hexadecimal digits, in either case. */
  predicate IsHash(name: string) {
    |name| >= 8 && forall c | c in name :: c in DIGITS || c in "abcdef" || c in "ABCDEF"
  }

  /** A compiler's prefix, in either case, and at least five word characters. */
  ghost predicate IsCompiled(name: string) {
    exists n | 0 <= n <= |name| ::
      && Lower(name[..n]) in {"css-", "sc-", "jsx-", "emotion-"} && |name| - n >= 5
      && forall c | c in name[n..] :: c in DIGITS || c in LETTERS || c in CAPITALS || c == '_' || c == '-'
  }

  lemma HexInEitherCase(c: char)
    ensures IsHexChar(LowerChar(c)) <==> c in DIGITS || c in "abcdef" || c in "ABCDEF"
  {
    DigitsAreARange(c);
    assert c in "abcdef" <==> 'a' <= c <= 'f';
    assert c in "ABCDEF" <==> 'A' <= c <= 'F';
  }

  lemma WordInEitherCase(c: char)
    ensures IsWordChar(LowerChar(c)) <==> c in DIGITS || c in LETTERS || c in CAPITALS || c == '_' || c == '-'
  {
    DigitsAreARange(c);
    LettersAreARange(c);
    CapitalsAreARange(c);
  }

  lemma LowerSlices(s: string, n: nat)
    requires n <= |s|
    ensures Lower(s)[..n] == Lower(s[..n]) && Lower(s)[n..] == Lower(s[n..])
  {
  }

  lemma AllWordChars(s: string)
    ensures (forall c | c in Lower(s) :: IsWordChar(c)) <==>
            (forall c | c in s :: c in DIGITS || c in LETTERS || c in CAPITALS || c == '_' || c == '-')
  {
    forall i | 0 <= i < |s|
      ensures IsWordChar(Lower(s)[i]) <==> s[i] in DIGITS || s[i] in LETTERS || s[i] in CAPITALS || s[i] == '_' || s[i] == '-'
    {
      WordInEitherCase(s[i]);
    }
    hide IsWordChar;
    assert forall c | c in s :: exists i | 0 <= i < |s| :: s[i] == c;
    assert forall i | 0 <= i < |s| :: Lower(s)[i] in Lower(s) && s[i] in s;
  }

  lemma AllHexChars(s: string)
    ensures (forall c | c in Lower(s) :: IsHexChar(c)) <==> (forall c | c in s :: c in DIGITS || c in "abcdef" || c in "ABCDEF")
  {
    forall i | 0 <= i < |s|
      ensures IsHexChar(Lower(s)[i]) <==> s[i] in DIGITS || s[i] in "abcdef" || s[i] in "ABCDEF"
    {
      HexInEitherCase(s[i]);
    }
    hide IsHexChar;
    assert forall i | 0 <= i < |s| :: Lower(s)[i] in Lower(s) && s[i] in s;
  }

  lemma GeneratedIsCompiled(name: string, prefix: string)
    requires prefix in ["css-", "sc-", "jsx-", "emotion-"]
    ensures IsGenerated(Lower(name), prefix) ==> IsCompiled(name)
  {
    if IsGenerated(Lower(name), prefix) {
      var n := |prefix|;
      LowerSlices(name, n);
      AllWordChars(name[n..]);
      assert Lower(name[..n]) == prefix;
    }
  }

  /** Which class names are left out: empty or long ones, hashes, and those a style compiler makes. */
  lemma StableClassIsExact(name: string)
    ensures IsStableClass(name) <==> name != "" && |name| <= 80 && !IsHash(name) && !IsCompiled(name)
  {
    AllHexChars(name);
    forall prefix | prefix in ["css-", "sc-", "jsx-", "emotion-"] ensures IsGenerated(Lower(name), prefix) ==> IsCompiled(name) {
      GeneratedIsCompiled(name, prefix);
    }
    hide IsHexChar, IsWordChar;
    if IsCompiled(name) {
      var n :| 0 <= n <= |name| && Lower(name[..n]) in {"css-", "sc-", "jsx-", "emotion-"} && |name| - n >= 5
        && forall c | c in name[n..] :: c in DIGITS || c in LETTERS || c in CAPITALS || c == '_' || c == '-';
      LowerSlices(name, n);
      AllWordChars(name[n..]);
      assert IsGenerated(Lower(name), Lower(name[..n]));
    }
  }

  // ---------------------------------------------------------------- one attribute

  /** The element's value of an attribute; absent reads as empty. */
  function ValueOf(e: Element, name: string): string {
    if name in e.attributes then e.attributes[name] else ""
  }

  /** The tag and one attribute of the element, as they are written into a selector. */
  predicate Names(c: Compound, e: Element, name: string) {
    c == Compound(Lower(e.tag), Some(Attribute(name, Quoted(ValueOf(e, name)))), [], None)
  }

  /** Quoting turns the three line breaks into spaces and changes nothing else. */
  lemma QuotedIsSpelledOut(s: string, i: nat)
    requires i < |s|
    ensures |Quoted(s)| == |s|
    ensures Quoted(s)[i] == if s[i] == '\n' || s[i] == '\r' || s[i] == 12 as char then ' ' else s[i]
  {
  }

  const TELLING := ["data-testid", "data-test", "data-qa", "data-cy", "aria-label", "name", "title"]

  /** Tag and attribute select this element's kind once in the document; an id may have any length. */
  ghost predicate SinglesOut(doc: Document, e: Element, name: string)
    requires ValidDocument(doc)
  {
    exists c :: IsTelling(doc, e, name, c)
  }

  predicate IsTelling(doc: Document, e: Element, name: string, c: Compound)
    requires ValidDocument(doc)
  {
    && ValueOf(e, name) != "" && (name == "id" || |ValueOf(e, name)| <= 500)
    && Names(c, e, name) && IsUnique(doc, [c])
  }

  lemma TellingIsByAttribute(doc: Document, e: Element, name: string)
    requires ValidDocument(doc)
    ensures SinglesOut(doc, e, name) <==> IsTelling(doc, e, name, ByAttribute(e, name))
  {
    hide IsUnique, Quoted, Lower;
    if SinglesOut(doc, e, name) {
      var c :| IsTelling(doc, e, name, c);
      assert c == ByAttribute(e, name);
    }
  }

  lemma {:induction false} FirstTelling(doc: Document, i: nat, names: seq<string>) returns (k: nat)
    requires ValidDocument(doc) && i < |doc| && "id" !in names
    ensures k <= |names| && forall j | 0 <= j < k :: !SinglesOut(doc, doc[i], names[j])
    ensures UniqueAttribute(doc, i, names) == if k < |names| then Some(names[k]) else None
    ensures k < |names| ==> SinglesOut(doc, doc[i], names[k])
  {
    hide IsUnique, Quoted, Lower;
    if names == [] {
      k := 0;
    } else {
      TellingIsByAttribute(doc, doc[i], names[0]);
      assert names[0] in names;
      if SinglesOut(doc, doc[i], names[0]) {
        k := 0;
      } else {
        k := FirstTelling(doc, i, names[1..]);
        assert forall j | 0 < j <= k :: names[j] == names[1..][j - 1];
        k := k + 1;
      }
    }
  }

  // ---------------------------------------------------------------- one step of a path

  /** The first two of the class names that are kept. */
  predicate AreFirstTwo(kept: seq<string>, classes: seq<string>) {
    && |kept| <= 2
    && exists n | 0 <= n <= |classes| :: kept == Filter(IsStableClass, classes[..n]) && (|kept| == 2 || n == |classes|)
  }

  lemma {:induction false} FilterStopsAtTwo(classes: seq<string>) returns (n: nat)
    ensures n <= |classes|
    ensures var kept := Filter(IsStableClass, classes);
            Filter(IsStableClass, classes[..n]) == kept[..if |kept| < 2 then |kept| else 2]
            && (|kept| >= 2 || n == |classes|)
  {
    hide IsStableClass;
    var kept := Filter(IsStableClass, classes);
    if |kept| <= 2 {
      n := |classes|;
      assert classes[..n] == classes;
    } else {
      n := FilterStopsAtTwo(classes[..|classes| - 1]);
      assert classes[..|classes| - 1][..n] == classes[..n];
      assert Filter(IsStableClass, classes[..|classes| - 1]) <= kept;
    }
  }

  lemma StableClassesAreFirstTwo(e: Element)
    ensures AreFirstTwo(StableClasses(e), e.classes)
  {
    hide IsStableClass;
    var n := FilterStopsAtTwo(e.classes);
    assert StableClasses(e) == Filter(IsStableClass, e.classes[..n]);
  }

  /** The siblings that the parent finds by the lower-case tag. */
  function Namesakes(doc: Document, i: nat): set<int>
    requires i < |doc|
  {
    set j | 0 <= j < |doc| && doc[i].parent.Some? && doc[j].parent == doc[i].parent && doc[j].tag == Lower(doc[i].tag)
  }

  /** A step for an element without an id: its tag, two classes, and its position when it has namesakes. */
  predicate IsStep(doc: Document, i: nat, c: Compound)
    requires i < |doc|
  {
    && c.tag == Lower(doc[i].tag) && c.attribute == None && AreFirstTwo(c.classes, doc[i].classes)
    && c.nth == if |Namesakes(doc, i)| > 1 && i in Namesakes(doc, i) then Some(NthOfType(doc, i)) else None
  }

  lemma NthSelectorIsExact(doc: Document, i: nat)
    requires i < |doc|
    ensures NthSelector(doc, i) == if |Namesakes(doc, i)| > 1 && i in Namesakes(doc, i) then Some(NthOfType(doc, i)) else None
  {
    if doc[i].parent.Some? {
      var parent, tag := doc[i].parent.value, Lower(doc[i].tag);
      ChildrenAreCounted(doc, parent, tag, |doc|);
      ChildrenMembers(doc, parent, tag, |doc|);
      IndexOfMissing(ChildrenCalled(doc, parent, tag, |doc|), i);
      assert Namesakes(doc, i) == Called(doc, parent, tag, |doc|);
      hide ChildrenCalled, IndexOf, Called, Lower;
      NthSelectorIsRight(doc, i);
    } else {
      assert Namesakes(doc, i) == {};
    }
  }

  lemma SegmentIsSpelledOut(doc: Document, i: nat)
    requires i < |doc|
    ensures if ValueOf(doc[i], "id") != "" then Names(Segment(doc, i), doc[i], "id") else IsStep(doc, i, Segment(doc, i))
  {
    hide Namesakes, NthSelector, AreFirstTwo, StableClasses, Lower, Quoted, NthOfType;
    NthSelectorIsExact(doc, i);
    StableClassesAreFirstTwo(doc[i]);
  }

  // ---------------------------------------------------------------- the path

  /** `s` leads from an ancestor down to the element, a step for each, and an id may stand only at the top. */
  ghost predicate IsPathTo(doc: Document, i: nat, s: Selector)
    requires ValidDocument(doc) && i < |doc|
    decreases |s|
  {
    && s != [] && (ValueOf(doc[i], "id") != "" ==> |s| == 1 && Names(s[0], doc[i], "id"))
    && (ValueOf(doc[i], "id") == "" ==> IsStep(doc, i, s[|s| - 1]))
    && (|s| > 1 ==> doc[i].parent.Some? && IsPathTo(doc, doc[i].parent.value, s[..|s| - 1]))
  }

  /** The element the path begins with. */
  function TopOf(doc: Document, i: nat, n: nat): (top: nat)
    requires ValidDocument(doc) && i < |doc|
    ensures top < |doc|
    decreases n
  {
    if n <= 1 || doc[i].parent.None? then i else TopOf(doc, doc[i].parent.value, n - 1)
  }

  /** The path is as short as the climb allows: no shorter one is unique, and it stops where it is unique, at an id, at
      the root or at ten steps. */
  ghost predicate StopsInTime(doc: Document, i: nat, s: Selector)
    requires ValidDocument(doc) && i < |doc| && s != []
  {
    && |s| <= 10
    && (forall k | 0 < k < |s| :: !IsUnique(doc, s[k..]))
    && (IsUnique(doc, s) || |s| == 10 || ValueOf(doc[TopOf(doc, i, |s|)], "id") != "" || doc[TopOf(doc, i, |s|)].parent.None?)
  }

  lemma {:induction false} SegmentsArePath(doc: Document, i: nat, n: nat)
    requires ValidDocument(doc) && i < |doc| && 0 < n <= PathLength(doc, i) && IdFree(doc, i, n - 1)
    ensures IsPathTo(doc, i, Segments(doc, i, n)) && TopOf(doc, i, n) == Ancestor(doc, i, n - 1)
    decreases n
  {
    hide Segment, IsStep, Names;
    SegmentIsSpelledOut(doc, i);
    if n > 1 {
      SegmentsArePath(doc, doc[i].parent.value, n - 1);
      assert Segments(doc, i, n)[..n - 1] == Segments(doc, doc[i].parent.value, n - 1);
    }
  }

  lemma {:induction false} SegmentsNest(doc: Document, i: nat, m: nat, n: nat)
    requires ValidDocument(doc) && i < |doc| && m <= n <= PathLength(doc, i)
    ensures Segments(doc, i, n)[n - m..] == Segments(doc, i, m)
    decreases n - m
  {
    if m < n {
      SegmentsNest(doc, i, m, n - 1);
      SegmentsExtend(doc, i, n - 1);
      assert Segments(doc, i, n)[1..] == Segments(doc, i, n - 1);
      assert Segments(doc, i, n)[n - m..] == Segments(doc, i, n)[1..][n - 1 - m..];
    } else {
      assert Segments(doc, i, n)[0..] == Segments(doc, i, n);
    }
  }

  lemma {:induction false} ClimbIsShortest(doc: Document, i: nat, n: nat, k: nat)
    requires ValidDocument(doc) && i < |doc| && n < PathLength(doc, i) && n < 10 && n < k < ClimbEnd(doc, i, n)
    ensures !IsUnique(doc, Segments(doc, i, k))
    decreases 10 - n
  {
    hide IsUnique, Segments, HasId;
    if k > n + 1 {
      ClimbIsShortest(doc, i, n + 1, k);
    }
  }

  lemma NoShorterIsUnique(doc: Document, i: nat, m: nat)
    requires ValidDocument(doc) && i < |doc| && m == ClimbEnd(doc, i, 0)
    ensures |Segments(doc, i, m)| == m && forall k | 0 < k < m :: !IsUnique(doc, Segments(doc, i, m)[k..])
  {
    hide Segment, IsUnique, HasId, Ancestor, ClimbEnd;
    assert |Segments(doc, i, m)| == m;
    hide Segments;
    forall k | 0 < k < m ensures !IsUnique(doc, Segments(doc, i, m)[k..]) {
      SegmentsNest(doc, i, m - k, m);
      ClimbIsShortest(doc, i, 0, m - k);
    }
  }

  lemma ClimbStopsInTime(doc: Document, i: nat)
    requires ValidDocument(doc) && i < |doc|
    ensures var s := PathSelector(doc, Some(i), 0, []);
            s != [] && IsPathTo(doc, i, s) && StopsInTime(doc, i, s)
  {
    hide PathSelector, Segments, IsUnique, IsPathTo, IdFree, ClimbEnd, Ancestor, PathLength, TopOf;
    var m := ClimbStops(doc, i);
    SegmentsArePath(doc, i, m);
    NoShorterIsUnique(doc, i, m);
    RootIsLast(doc, i, m);
  }

  lemma RootIsLast(doc: Document, i: nat, m: nat)
    requires ValidDocument(doc) && i < |doc| && 0 < m <= PathLength(doc, i)
    ensures m == PathLength(doc, i) ==> doc[Ancestor(doc, i, m - 1)].parent.None?
  {
    var top := Ancestor(doc, i, m - 1);
    if doc[top].parent.Some? {
      assert PathLength(doc, top) >= 1 + PathLength(doc, doc[top].parent.value) >= 2;
    }
  }

  // ---------------------------------------------------------------- the selector

  /** The selector of an element: its id where that singles it out; else the first telling attribute that does; else the
      path of the climb. */
  ghost predicate IsSelectorOf(doc: Document, i: nat, s: Selector)
    requires ValidDocument(doc) && i < |doc|
  {
    if SinglesOut(doc, doc[i], "id") then |s| == 1 && Names(s[0], doc[i], "id")
    else if exists k | 0 <= k < |TELLING| :: SinglesOut(doc, doc[i], TELLING[k]) then
      exists k | 0 <= k < |TELLING| :: IsFirstTelling(doc, doc[i], k) && |s| == 1 && Names(s[0], doc[i], TELLING[k])
    else s != [] && IsPathTo(doc, i, s) && StopsInTime(doc, i, s)
  }

  ghost predicate IsFirstTelling(doc: Document, e: Element, k: nat)
    requires ValidDocument(doc) && k < |TELLING|
  {
    SinglesOut(doc, e, TELLING[k]) && forall j | 0 <= j < k :: !SinglesOut(doc, e, TELLING[j])
  }

  lemma SelectorIsSpelledOut(doc: Document, i: nat)
    requires ValidDocument(doc) && i < |doc|
    ensures IsSelectorOf(doc, i, SelectorFor(doc, i))
  {
    hide IsUnique, Quoted, Lower, PathSelector, UniqueAttribute, SinglesOut, IsPathTo, StopsInTime;
    TellingIsByAttribute(doc, doc[i], "id");
    assert "id" !in STABLE_ATTRIBUTES && TELLING == STABLE_ATTRIBUTES;
    var k := FirstTelling(doc, i, STABLE_ATTRIBUTES);
    if k < 7 {
      assert SinglesOut(doc, doc[i], TELLING[k]) && IsFirstTelling(doc, doc[i], k);
      TellingIsByAttribute(doc, doc[i], TELLING[k]);
    }
    ClimbStopsInTime(doc, i);
  }

  /** An element that an id or a telling attribute singles out gets a unique selector. */
  lemma SingledOutIsUnique(doc: Document, i: nat)
    requires ValidDocument(doc) && i < |doc|
    requires SinglesOut(doc, doc[i], "id") || exists k | 0 <= k < |TELLING| :: SinglesOut(doc, doc[i], TELLING[k])
    ensures SelectorFor(doc, i) != [] && IsUnique(doc, SelectorFor(doc, i))
  {
    hide IsUnique, Quoted, Lower, SelectorFor, IsPathTo, StopsInTime;
    SelectorIsSpelledOut(doc, i);
    var s := SelectorFor(doc, i);
    assert s == [s[0]];
  }

  /** The loops over attributes and ancestors. */
  method BuildStableSelector(doc: Document, element: nat) returns (selector: Selector)
    requires ValidDocument(doc) && element < |doc|
    ensures selector == SelectorFor(doc, element) && IsSelectorOf(doc, element, selector)
  {
    hide IsUnique, Segment, ByAttribute, AttributeOf, NthSelector, IsSelectorOf;
    SelectorIsSpelledOut(doc, element);
    if HasId(doc[element]) {
      var candidate := [ByAttribute(doc[element], "id")];
      if IsUnique(doc, candidate) {
        return candidate;
      }
    }
    for k := 0 to |STABLE_ATTRIBUTES|
      invariant UniqueAttribute(doc, element, STABLE_ATTRIBUTES) == UniqueAttribute(doc, element, STABLE_ATTRIBUTES[k..])
    {
      var value := AttributeOf(doc[element], STABLE_ATTRIBUTES[k]);
      assert STABLE_ATTRIBUTES[k..][0] == STABLE_ATTRIBUTES[k];
      assert STABLE_ATTRIBUTES[k..][1..] == STABLE_ATTRIBUTES[k + 1..];
      if value == "" || |value| > 500 {
        continue;
      }
      var candidate := [ByAttribute(doc[element], STABLE_ATTRIBUTES[k])];
      if IsUnique(doc, candidate) {
        return candidate;
      }
    }
    selector := [];
    var current: Option<nat>, depth: nat := Some(element), 0;
    while current.Some? && depth < 10
      invariant 0 <= depth <= 10 && (current.Some? ==> current.value < |doc|)
      invariant PathSelector(doc, Some(element), 0, []) == PathSelector(doc, current, depth, selector)
      decreases 10 - depth
    {
      selector := [Segment(doc, current.value)] + selector;
      if HasId(doc[current.value]) || IsUnique(doc, selector) {
        return;
      }
      current, depth := doc[current.value].parent, depth + 1;
    }
  }
}
