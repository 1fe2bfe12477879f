/** Key-sorted JSON: two values have the same stable string exactly when they differ in field order only. */
module CanonicalJson {
  import opened Json
  import opened Sorting
  import Numerals
  import StringOrder

  // ---------------------------------------------------------------- how JavaScript enumerates keys

  /** A canonical array index: the decimal form of a number below 2^32 - 1. */
  predicate IsIndex(key: string) {
    var n := Numerals.Read(key, 10);
    n < 0xFFFF_FFFF && Numerals.Print(n, 10) == key
  }

  /** Index keys are enumerated first and in numeric order; all other keys in insertion order. */
  predicate EnumeratedBefore(f: Field, g: Field) {
    IsIndex(f.key) && (!IsIndex(g.key) || Numerals.Read(f.key, 10) < Numerals.Read(g.key, 10))
  }

  predicate KeyBefore(f: Field, g: Field) {
    StringOrder.Less(f.key, g.key)
  }

  /** The object `Object.fromEntries` builds from `fields` sorted by key. */
  function Arrange(fields: seq<Field>): seq<Field> {
    Sort(EnumeratedBefore, Sort(KeyBefore, fields))
  }

  function Canonical(v: Json): Json
    decreases v
  {
    match v
    case JArr(items) => JArr(CanonicalItems(items))
    case JObj(fields) => JObj(Arrange(CanonicalFields(fields)))
    case _ => v
  }

  function CanonicalItems(items: seq<Json>): (r: seq<Json>)
    ensures |r| == |items| && forall i | 0 <= i < |r| :: r[i] == Canonical(items[i])
    decreases items
  {
    if items == [] then [] else [Canonical(items[0])] + CanonicalItems(items[1..])
  }

  function CanonicalFields(fields: seq<Field>): (r: seq<Field>)
    ensures |r| == |fields|
    ensures forall i | 0 <= i < |r| :: r[i] == Field(fields[i].key, Canonical(fields[i].value))
    decreases fields
  {
    if fields == [] then [] else [Field(fields[0].key, Canonical(fields[0].value))] + CanonicalFields(fields[1..])
  }

  function StableStringify(v: Json): string {
    Print(Canonical(v))
  }

  // ---------------------------------------------------------------- equality up to field order

  ghost predicate HasKey(fields: seq<Field>, key: string) {
    exists i | 0 <= i < |fields| :: fields[i].key == key
  }

  /** Equal up to the order of fields, at every depth. */
  ghost predicate Equivalent(a: Json, b: Json)
    decreases a
  {
    if a.JArr? && b.JArr? then
      |a.items| == |b.items| && forall i | 0 <= i < |a.items| :: Equivalent(a.items[i], b.items[i])
    else if a.JObj? && b.JObj? then
      && (forall key :: HasKey(a.fields, key) <==> HasKey(b.fields, key))
      && forall i, j | 0 <= i < |a.fields| && 0 <= j < |b.fields| && a.fields[i].key == b.fields[j].key ::
           Equivalent(a.fields[i].value, b.fields[j].value)
    else a == b
  }

  // ---------------------------------------------------------------- arranging

  lemma ArrangeIsPermutation(fields: seq<Field>)
    ensures multiset(Arrange(fields)) == multiset(fields)
    ensures |Arrange(fields)| == |fields|
    ensures forall f :: f in Arrange(fields) <==> f in fields
  {
    SortIsPermutation(KeyBefore, fields);
    SortIsPermutation(EnumeratedBefore, Sort(KeyBefore, fields));
  }

  lemma KeyBeforeIsStrictWeakOrder()
    ensures StrictWeakOrder(KeyBefore)
  {
    hide StringOrder.Less;
    StringOrder.LessIsStrictTotalOrder();
  }

  lemma DistinctKeysSeparate(fields: seq<Field>)
    requires DistinctKeys(fields)
    ensures Separates(KeyBefore, fields) && NoDuplicates(fields)
  {
    hide StringOrder.Less;
    StringOrder.LessIsStrictTotalOrder();
    forall x, y | x in fields && y in fields && x != y ensures KeyBefore(x, y) || KeyBefore(y, x) {
      var i :| 0 <= i < |fields| && fields[i] == x;
      var j :| 0 <= j < |fields| && fields[j] == y;
      assert fields[i].key != fields[j].key;
    }
  }

  /** Arranged fields depend only on which fields there are. */
  lemma ArrangeForgetsOrder(a: seq<Field>, b: seq<Field>)
    requires DistinctKeys(a) && DistinctKeys(b) && forall f :: f in a <==> f in b
    ensures Arrange(a) == Arrange(b)
  {
    hide KeyBefore, EnumeratedBefore;
    DistinctKeysSeparate(a);
    DistinctKeysSeparate(b);
    SameMembersSameMultiset(a, b);
    KeyBeforeIsStrictWeakOrder();
    SortIsSorted(KeyBefore, a);
    SortIsSorted(KeyBefore, b);
    SortIsPermutation(KeyBefore, a);
    SortIsPermutation(KeyBefore, b);
    SortedIsUnique(KeyBefore, Sort(KeyBefore, a), Sort(KeyBefore, b));
  }

  // ---------------------------------------------------------------- the two directions

  lemma {:induction false} EquivalentSameCanonical(a: Json, b: Json)
    requires WellFormed(a) && WellFormed(b) && Equivalent(a, b)
    ensures Canonical(a) == Canonical(b)
    decreases a
  {
    if a.JArr? && b.JArr? {
      forall i | 0 <= i < |a.items| ensures CanonicalItems(a.items)[i] == CanonicalItems(b.items)[i] {
        EquivalentSameCanonical(a.items[i], b.items[i]);
      }
      assert CanonicalItems(a.items) == CanonicalItems(b.items);
    } else if a.JObj? && b.JObj? {
      forall i, j | 0 <= i < |a.fields| && 0 <= j < |b.fields| && a.fields[i].key == b.fields[j].key
        ensures Canonical(a.fields[i].value) == Canonical(b.fields[j].value)
      {
        EquivalentSameCanonical(a.fields[i].value, b.fields[j].value);
      }
      SameCanonicalFields(a.fields, b.fields);
    }
  }

  lemma SameCanonicalFields(xs: seq<Field>, ys: seq<Field>)
    requires DistinctKeys(xs) && DistinctKeys(ys)
    requires forall key :: HasKey(xs, key) <==> HasKey(ys, key)
    requires forall i, j | 0 <= i < |xs| && 0 <= j < |ys| && xs[i].key == ys[j].key ::
               Canonical(xs[i].value) == Canonical(ys[j].value)
    ensures Arrange(CanonicalFields(xs)) == Arrange(CanonicalFields(ys))
  {
    hide Canonical, CanonicalFields, Arrange;
    forall f ensures f in CanonicalFields(xs) <==> f in CanonicalFields(ys) {
      if i :| 0 <= i < |xs| && xs[i].key == f.key && Canonical(xs[i].value) == f.value {
        assert HasKey(xs, f.key);
        var j :| 0 <= j < |ys| && ys[j].key == f.key;
      }
      if j :| 0 <= j < |ys| && ys[j].key == f.key && Canonical(ys[j].value) == f.value {
        assert HasKey(ys, f.key);
        var i :| 0 <= i < |xs| && xs[i].key == f.key;
      }
    }
    ArrangeForgetsOrder(CanonicalFields(xs), CanonicalFields(ys));
  }

  lemma {:induction false} SameCanonicalEquivalent(a: Json, b: Json)
    requires WellFormed(a) && WellFormed(b) && Canonical(a) == Canonical(b)
    ensures Equivalent(a, b)
    decreases a
  {
    if a.JArr? && b.JArr? {
      assert |CanonicalItems(a.items)| == |CanonicalItems(b.items)|;
      forall i | 0 <= i < |a.items| ensures Equivalent(a.items[i], b.items[i]) {
        assert CanonicalItems(a.items)[i] == CanonicalItems(b.items)[i];
        SameCanonicalEquivalent(a.items[i], b.items[i]);
      }
    } else if a.JObj? && b.JObj? {
      SameArrangedFields(a.fields, b.fields);
      forall i, j | 0 <= i < |a.fields| && 0 <= j < |b.fields| && a.fields[i].key == b.fields[j].key
        ensures Equivalent(a.fields[i].value, b.fields[j].value)
      {
        SameCanonicalEquivalent(a.fields[i].value, b.fields[j].value);
      }
    }
  }

  lemma SameArrangedFields(xs: seq<Field>, ys: seq<Field>)
    requires DistinctKeys(xs) && DistinctKeys(ys)
    requires Arrange(CanonicalFields(xs)) == Arrange(CanonicalFields(ys))
    ensures forall key :: HasKey(xs, key) <==> HasKey(ys, key)
    ensures forall i, j | 0 <= i < |xs| && 0 <= j < |ys| && xs[i].key == ys[j].key ::
              Canonical(xs[i].value) == Canonical(ys[j].value)
  {
    hide Canonical, CanonicalFields, Arrange;
    ArrangeIsPermutation(CanonicalFields(xs));
    ArrangeIsPermutation(CanonicalFields(ys));
    forall i | 0 <= i < |xs|
      ensures exists j | 0 <= j < |ys| :: ys[j].key == xs[i].key && Canonical(ys[j].value) == Canonical(xs[i].value)
    {
      var f := CanonicalFields(xs)[i];
      assert f in CanonicalFields(xs);
      assert f in CanonicalFields(ys);
    }
    forall j | 0 <= j < |ys| ensures HasKey(xs, ys[j].key) {
      var f := CanonicalFields(ys)[j];
      assert f in CanonicalFields(ys);
      assert f in CanonicalFields(xs);
    }
  }

  // ---------------------------------------------------------------- canonical values

  lemma {:induction false} CanonicalIsWellFormed(v: Json)
    requires WellFormed(v)
    ensures WellFormed(Canonical(v))
    decreases v
  {
    match v
    case JArr(items) =>
      forall i | 0 <= i < |items| ensures WellFormed(CanonicalItems(items)[i]) {
        CanonicalIsWellFormed(items[i]);
      }
    case JObj(fields) =>
      forall i | 0 <= i < |fields| ensures WellFormed(CanonicalFields(fields)[i].value) {
        CanonicalIsWellFormed(fields[i].value);
      }
      ArrangeKeepsWellFormed(CanonicalFields(fields));
    case _ =>
  }

  lemma ArrangeKeepsWellFormed(fields: seq<Field>)
    requires DistinctKeys(fields) && forall i | 0 <= i < |fields| :: WellFormed(fields[i].value)
    ensures DistinctKeys(Arrange(fields))
    ensures forall i | 0 <= i < |Arrange(fields)| :: WellFormed(Arrange(fields)[i].value)
  {
    var r := Arrange(fields);
    hide Arrange, WellFormed;
    ArrangeIsPermutation(fields);
    DistinctKeysSeparate(fields);
    NoDuplicatesOfPermutation(fields, r);
    forall i | 0 <= i < |r| ensures WellFormed(r[i].value) {
      assert r[i] in r;
    }
    forall i, j | 0 <= i < j < |r| ensures r[i].key != r[j].key {
      assert r[i] in r && r[j] in r;
      var m :| 0 <= m < |fields| && fields[m] == r[i];
      var n :| 0 <= n < |fields| && fields[n] == r[j];
    }
  }

  /** A value and its canonical form differ in field order only. */
  lemma {:induction false} CanonicalIsEquivalent(v: Json)
    requires WellFormed(v)
    ensures Equivalent(Canonical(v), v)
    decreases v
  {
    match v
    case JArr(items) =>
      forall i | 0 <= i < |items| ensures Equivalent(CanonicalItems(items)[i], items[i]) {
        CanonicalIsEquivalent(items[i]);
      }
    case JObj(fields) =>
      forall i | 0 <= i < |fields| ensures Equivalent(Canonical(fields[i].value), fields[i].value) {
        CanonicalIsEquivalent(fields[i].value);
      }
      ArrangedIsEquivalent(fields);
    case _ =>
  }

  lemma ArrangedIsEquivalent(fields: seq<Field>)
    requires DistinctKeys(fields)
    requires forall i | 0 <= i < |fields| :: Equivalent(Canonical(fields[i].value), fields[i].value)
    ensures Equivalent(JObj(Arrange(CanonicalFields(fields))), JObj(fields))
  {
    var r := Arrange(CanonicalFields(fields));
    ArrangedHasSameKeys(fields);
    hide Arrange, Canonical, CanonicalFields, HasKey, DistinctKeys;
    forall i, j | 0 <= i < |r| && 0 <= j < |fields| && r[i].key == fields[j].key
      ensures Equivalent(r[i].value, fields[j].value)
    {
      ArrangedValue(fields, i, j);
    }
  }

  lemma ArrangedValue(fields: seq<Field>, i: nat, j: nat)
    requires DistinctKeys(fields)
    requires i < |Arrange(CanonicalFields(fields))| && j < |fields|
    requires Arrange(CanonicalFields(fields))[i].key == fields[j].key
    ensures Arrange(CanonicalFields(fields))[i].value == Canonical(fields[j].value)
  {
    var r := Arrange(CanonicalFields(fields));
    ArrangeIsPermutation(CanonicalFields(fields));
    hide Arrange, Canonical, CanonicalFields;
    assert r[i] in r;
    var k :| 0 <= k < |fields| && fields[k].key == r[i].key && Canonical(fields[k].value) == r[i].value;
    assert k == j;
  }

  lemma ArrangedHasSameKeys(fields: seq<Field>)
    ensures forall key :: HasKey(Arrange(CanonicalFields(fields)), key) <==> HasKey(fields, key)
  {
    var r := Arrange(CanonicalFields(fields));
    ArrangeIsPermutation(CanonicalFields(fields));
    hide Arrange, Canonical, CanonicalFields;
    forall i | 0 <= i < |r| ensures HasKey(fields, r[i].key) {
      assert r[i] in r;
    }
    forall j | 0 <= j < |fields| ensures HasKey(r, fields[j].key) {
      var f := CanonicalFields(fields)[j];
      assert f in CanonicalFields(fields);
      assert f in r;
    }
  }

  // ---------------------------------------------------------------- the main results

  /** Two JSON values have the same stable string exactly when they are equal up to field order. */
  lemma SameStringIffEquivalent(a: Json, b: Json)
    requires WellFormed(a) && WellFormed(b)
    ensures StableStringify(a) == StableStringify(b) <==> Equivalent(a, b)
  {
    hide Canonical, Print;
    if StableStringify(a) == StableStringify(b) {
      CanonicalIsWellFormed(a);
      CanonicalIsWellFormed(b);
      TextDeterminesValue(Canonical(a), Canonical(b));
      SameCanonicalEquivalent(a, b);
    }
    if Equivalent(a, b) {
      EquivalentSameCanonical(a, b);
    }
  }

  lemma CanonicalIsIdempotent(v: Json)
    requires WellFormed(v)
    ensures Canonical(Canonical(v)) == Canonical(v)
  {
    hide Canonical;
    CanonicalIsWellFormed(v);
    CanonicalIsEquivalent(v);
    EquivalentSameCanonical(Canonical(v), v);
  }
}
