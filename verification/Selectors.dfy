/** A document as a list of elements, and what a chain of compound selectors selects in it: type, attribute, class and
    `:nth-of-type` selectors and the child combinator (Selectors Level 3, sections 6.1, 6.3, 6.4, 6.6.5.4 and 8.2). */
module Selectors {
  import opened Wrappers

  /** Elements are in document order; a parent precedes its children, and a root has none. */
  datatype Element = Element(tag: string, attributes: map<string, string>, classes: seq<string>, parent: Option<nat>)

  type Document = seq<Element>

  predicate ValidDocument(doc: Document) {
    forall i | 0 <= i < |doc| :: doc[i].parent.Some? ==> doc[i].parent.value < i
  }

  datatype Attribute = Attribute(name: string, value: string)

  datatype Compound = Compound(tag: string, attribute: Option<Attribute>, classes: seq<string>, nth: Option<nat>)

  /** Compounds joined by child combinators; the last one is the subject. */
  type Selector = seq<Compound>

  predicate SameType(doc: Document, i: nat, j: nat)
    requires i < |doc| && j < |doc|
  {
    doc[i].parent == doc[j].parent && doc[i].tag == doc[j].tag
  }

  function NthOfType(doc: Document, i: nat): nat
    requires i < |doc|
  {
    1 + |set j | 0 <= j < i && SameType(doc, i, j)|
  }

  predicate MatchesCompound(doc: Document, i: nat, c: Compound)
    requires i < |doc|
  {
    var e := doc[i];
    && e.tag == c.tag
    && (c.attribute.Some? ==>
          c.attribute.value.name in e.attributes && e.attributes[c.attribute.value.name] == c.attribute.value.value)
    && (forall name | name in c.classes :: name in e.classes)
    && (c.nth.Some? ==> c.nth.value == NthOfType(doc, i))
  }

  /** What each part of a compound asks for: the tag, the attribute with its value, every class, and the place among the
      siblings of the same tag. */
  lemma CompoundIsExact(doc: Document, i: nat, c: Compound, name: string)
    requires i < |doc|
    ensures MatchesCompound(doc, i, Compound(c.tag, None, [], None)) <==> doc[i].tag == c.tag
    ensures c.attribute.Some? ==>
              (MatchesCompound(doc, i, c) <==>
                 MatchesCompound(doc, i, c.(attribute := None)) && c.attribute.value.name in doc[i].attributes
                 && doc[i].attributes[c.attribute.value.name] == c.attribute.value.value)
    ensures MatchesCompound(doc, i, c.(classes := c.classes + [name])) <==> MatchesCompound(doc, i, c) && name in doc[i].classes
    ensures c.nth.Some? ==>
              (MatchesCompound(doc, i, c) <==>
                 MatchesCompound(doc, i, c.(nth := None))
                 && c.nth.value == 1 + |set j | 0 <= j < i && doc[j].parent == doc[i].parent && doc[j].tag == doc[i].tag|)
  {
    assert forall x :: x in c.classes + [name] <==> x in c.classes || x == name;
    assert (set j | 0 <= j < i && SameType(doc, i, j)) == set j | 0 <= j < i && doc[j].parent == doc[i].parent && doc[j].tag == doc[i].tag;
  }

  predicate Matches(doc: Document, i: nat, s: Selector)
    requires ValidDocument(doc) && i < |doc| && s != []
    decreases |s|
  {
    && MatchesCompound(doc, i, s[|s| - 1])
    && (|s| > 1 ==> doc[i].parent.Some? && Matches(doc, doc[i].parent.value, s[..|s| - 1]))
  }

  function Selected(doc: Document, s: Selector): set<nat>
    requires ValidDocument(doc) && s != []
  {
    set i: nat | i < |doc| && Matches(doc, i, s)
  }

  predicate IsUnique(doc: Document, s: Selector)
    requires ValidDocument(doc) && s != []
  {
    |Selected(doc, s)| == 1
  }

  lemma SingletonIsUnique(doc: Document, s: Selector, e: nat)
    requires ValidDocument(doc) && s != [] && IsUnique(doc, s)
    ensures Selected(doc, s) == {e} <==> e in Selected(doc, s)
  {
    var selected := Selected(doc, s);
    if e in selected {
      assert |selected - {e}| == 0;
      assert selected == {e} + (selected - {e});
    }
  }
}
