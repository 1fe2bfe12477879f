/** The cache key of a context request: what it identifies, and which keys belong to a root. */
module CacheKeys {
  import opened Wrappers
  import opened Sorting
  import opened Numerals
  import StringOrder

  const NUL: char := 0 as char
  const UNIT: char := 31 as char

  /** A request with its paths resolved and its task trimmed. */
  datatype Request = Request(root: string, intent: string, task: string, files: seq<string>,
                             maxItems: Option<int>, maxChars: Option<int>)

  /** No path carries NUL. The task is free text, and the intent is one of a few fixed words or absent. */
  ghost predicate NulFree(r: Request) {
    NUL !in r.root && NUL !in r.intent && forall f | f in r.files :: NUL !in f
  }

  /** No path carries a separator; that a resolved path is not empty excludes nothing. */
  ghost predicate Clean(r: Request) {
    NulFree(r) && forall f | f in r.files :: f != "" && UNIT !in f
  }

  function Show(n: Option<int>): string {
    match n
    case None => ""
    case Some(k) => if k < 0 then "-" + Print(-k, 10) else Print(k, 10)
  }

  function Join(sep: char, parts: seq<string>): string {
    if parts == [] then ""
    else if |parts| == 1 then parts[0]
    else parts[0] + ([sep] + Join(sep, parts[1..]))
  }

  function SortedFiles(r: Request): string {
    Join(UNIT, Sort(StringOrder.Less, r.files))
  }

  /** The part of the key after the task. */
  function Tail(r: Request): string {
    SortedFiles(r) + ([NUL] + (Show(r.maxItems) + ([NUL] + Show(r.maxChars))))
  }

  function Key(r: Request, revision: nat): string {
    r.root + ([NUL] + (Print(revision, 10) + ([NUL] + (r.intent + ([NUL] + (r.task + ([NUL] + Tail(r))))))))
  }

  // ---------------------------------------------------------------- taking fields off either end

  lemma FirstField(sep: char, a: string, x: string, b: string, y: string)
    requires sep !in a && sep !in b && a + ([sep] + x) == b + ([sep] + y)
    ensures a == b && x == y
  {
    var l, r := a + ([sep] + x), b + ([sep] + y);
    assert l[|a|] == sep && r[|b|] == sep;
    assert forall k | 0 <= k < |a| :: l[k] == a[k] && a[k] in a;
    assert forall k | 0 <= k < |b| :: r[k] == b[k] && b[k] in b;
    assert |a| == |b|;
    assert l[..|a|] == a && r[..|b|] == b;
    assert l[|a| + 1..] == x && r[|b| + 1..] == y;
  }

  lemma LastField(sep: char, x: string, a: string, y: string, b: string)
    requires sep !in a && sep !in b && x + ([sep] + a) == y + ([sep] + b)
    ensures x == y && a == b
  {
    var l, r := x + ([sep] + a), y + ([sep] + b);
    assert |l| == |r| && l[|x|] == sep && r[|y|] == sep;
    assert forall k | |x| < k < |l| :: l[k] == a[k - |x| - 1] && a[k - |x| - 1] in a;
    assert forall k | |y| < k < |r| :: r[k] == b[k - |y| - 1] && b[k - |y| - 1] in b;
    assert |x| == |y|;
    assert l[..|x|] == x && r[..|y|] == y;
    assert l[|x| + 1..] == a && r[|y| + 1..] == b;
  }

  /** Three separator-free fields at the end of a text are determined by the text. */
  lemma LastThreeFields(sep: char, x: string, a: string, b: string, c: string, x': string, a': string, b': string, c': string)
    requires sep !in a && sep !in b && sep !in c && sep !in a' && sep !in b' && sep !in c'
    requires x + ([sep] + (a + ([sep] + (b + ([sep] + c))))) == x' + ([sep] + (a' + ([sep] + (b' + ([sep] + c')))))
    ensures x == x' && a == a' && b == b' && c == c'
  {
    var xa, xab := x + ([sep] + a), (x + ([sep] + a)) + ([sep] + b);
    var xa', xab' := x' + ([sep] + a'), (x' + ([sep] + a')) + ([sep] + b');
    assert x + ([sep] + (a + ([sep] + (b + ([sep] + c))))) == xab + ([sep] + c);
    assert x' + ([sep] + (a' + ([sep] + (b' + ([sep] + c'))))) == xab' + ([sep] + c');
    LastField(sep, xab, c, xab', c');
    LastField(sep, xa, b, xa', b');
    LastField(sep, x, a, x', a');
  }

  ghost predicate Plain(sep: char, parts: seq<string>) {
    forall p | p in parts :: p != "" && sep !in p
  }

  lemma {:induction false} JoinInjective(sep: char, a: seq<string>, b: seq<string>)
    requires Plain(sep, a) && Plain(sep, b) && Join(sep, a) == Join(sep, b)
    ensures a == b
  {
    JoinIsEmptyOnlyForNothing(sep, a);
    JoinIsEmptyOnlyForNothing(sep, b);
    JoinHasSeparator(sep, a);
    JoinHasSeparator(sep, b);
    if |a| > 1 {
      assert a[0] in a && b[0] in b;
      FirstField(sep, a[0], Join(sep, a[1..]), b[0], Join(sep, b[1..]));
      assert (forall p | p in a[1..] :: p in a) && (forall p | p in b[1..] :: p in b);
      JoinInjective(sep, a[1..], b[1..]);
      assert a == [a[0]] + a[1..] && b == [b[0]] + b[1..];
    }
  }

  lemma JoinHasSeparator(sep: char, a: seq<string>)
    requires Plain(sep, a)
    ensures sep in Join(sep, a) <==> |a| > 1
  {
    if |a| > 1 {
      assert Join(sep, a)[|a[0]|] == sep;
    } else if |a| == 1 {
      assert a[0] in a;
    }
  }

  lemma JoinIsEmptyOnlyForNothing(sep: char, a: seq<string>)
    requires Plain(sep, a)
    ensures Join(sep, a) == "" <==> a == []
  {
    if a != [] {
      assert a[0] in a;
    }
  }

  lemma {:induction false} JoinAvoids(sep: char, c: char, parts: seq<string>)
    requires c != sep && forall p | p in parts :: c !in p
    ensures c !in Join(sep, parts)
  {
    if |parts| == 1 {
      assert parts[0] in parts;
    } else if |parts| > 1 {
      assert parts[0] in parts;
      JoinAvoids(sep, c, parts[1..]);
    }
  }

  lemma DigitsAvoid(n: nat)
    ensures NUL !in Print(n, 10) && '-' !in Print(n, 10) && Print(n, 10) != ""
  {
    PrintIsDigits(n, 10);
  }

  lemma ShowFacts(m: Option<int>)
    ensures NUL !in Show(m)
    ensures m.None? <==> Show(m) == ""
    ensures m.Some? && m.value < 0 <==> '-' in Show(m)
  {
    match m
    case None =>
    case Some(k) =>
      DigitsAvoid(if k < 0 then -k else k);
      if k < 0 {
        assert Show(m)[0] == '-';
      }
  }

  lemma ShowInjective(m: Option<int>, n: Option<int>)
    requires Show(m) == Show(n)
    ensures m == n
  {
    ShowFacts(m);
    ShowFacts(n);
    if m.Some? {
      var i, j := m.value, n.value;
      if i < 0 {
        assert Show(m)[1..] == Print(-i, 10) && Show(n)[1..] == Print(-j, 10);
        PrintInjective(-i, -j, 10);
      } else {
        PrintInjective(i, j, 10);
      }
    }
  }

  lemma FilesAvoidNul(r: Request)
    requires NulFree(r)
    ensures NUL !in SortedFiles(r)
  {
    SortIsPermutation(StringOrder.Less, r.files);
    JoinAvoids(UNIT, NUL, Sort(StringOrder.Less, r.files));
  }

  lemma FieldsAvoidNul(r: Request, revision: nat)
    requires NulFree(r)
    ensures NUL !in Print(revision, 10) && NUL !in SortedFiles(r) && NUL !in Show(r.maxItems) && NUL !in Show(r.maxChars)
  {
    DigitsAvoid(revision);
    ShowFacts(r.maxItems);
    ShowFacts(r.maxChars);
    FilesAvoidNul(r);
  }

  lemma SameKeySameFields(r: Request, revision: nat, s: Request, revision': nat)
    requires NulFree(r) && NulFree(s) && Key(r, revision) == Key(s, revision')
    ensures revision == revision' && s == r.(files := s.files) && SortedFiles(r) == SortedFiles(s)
  {
    FieldsAvoidNul(r, revision);
    FieldsAvoidNul(s, revision');
    hide Print, Show, SortedFiles;
    var r3, s3 := r.task + ([NUL] + Tail(r)), s.task + ([NUL] + Tail(s));
    var r2, s2 := r.intent + ([NUL] + r3), s.intent + ([NUL] + s3);
    var r1, s1 := Print(revision, 10) + ([NUL] + r2), Print(revision', 10) + ([NUL] + s2);
    FirstField(NUL, r.root, r1, s.root, s1);
    FirstField(NUL, Print(revision, 10), r2, Print(revision', 10), s2);
    FirstField(NUL, r.intent, r3, s.intent, s3);
    PrintInjective(revision, revision', 10);
    LastThreeFields(NUL, r.task, SortedFiles(r), Show(r.maxItems), Show(r.maxChars),
                    s.task, SortedFiles(s), Show(s.maxItems), Show(s.maxChars));
    ShowInjective(r.maxItems, s.maxItems);
    ShowInjective(r.maxChars, s.maxChars);
  }

  /** Two requests share a key exactly when they are alike at the same revision but for changed files that are written
      the same way once sorted and joined. */
  lemma KeyIsExact(r: Request, revision: nat, s: Request, revision': nat)
    requires NulFree(r) && NulFree(s)
    ensures Key(r, revision) == Key(s, revision')
       <==> revision == revision' && s == r.(files := s.files) && SortedFiles(r) == SortedFiles(s)
  {
    hide NulFree;
    if Key(r, revision) == Key(s, revision') {
      SameKeySameFields(r, revision, s, revision');
    }
  }

  /** The same key means the same request, up to the order of its changed files, at the same revision. */
  lemma KeyIsInjective(r: Request, revision: nat, s: Request, revision': nat)
    requires Clean(r) && Clean(s) && Key(r, revision) == Key(s, revision')
    ensures revision == revision'
    ensures s == r.(files := s.files) && multiset(r.files) == multiset(s.files)
  {
    KeyIsExact(r, revision, s, revision');
    hide Key;
    SortIsPermutation(StringOrder.Less, r.files);
    SortIsPermutation(StringOrder.Less, s.files);
    JoinInjective(UNIT, Sort(StringOrder.Less, r.files), Sort(StringOrder.Less, s.files));
  }

  /** Reordering the changed files leaves the key alone. */
  lemma KeyForgetsFileOrder(r: Request, files: seq<string>, revision: nat)
    requires multiset(files) == multiset(r.files)
    ensures Key(r.(files := files), revision) == Key(r, revision)
  {
    StringOrder.SortForgetsOrder(files, r.files);
  }

  // ---------------------------------------------------------------- why paths may not carry a separator

  /** NUL in a changed file: whatever the path `p`, the file that ends in NUL is mistaken for a longer task. */
  lemma NulInFileCollides(root: string, p: string, task: string, revision: nat)
    requires p != ""
    ensures var r := Request(root, "", task + [NUL] + p, [], None, None);
            var s := Request(root, "", task, [p + [NUL]], None, None);
            r != s && Key(r, revision) == Key(s, revision)
  {
    var r := Request(root, "", task + [NUL] + p, [], None, None);
    var s := Request(root, "", task, [p + [NUL]], None, None);
    assert Sort(StringOrder.Less, s.files) == s.files;
    assert SortedFiles(r) == "" && SortedFiles(s) == p + [NUL];
    assert r.task + ([NUL] + Tail(r)) == s.task + ([NUL] + Tail(s));
  }

  lemma Regroup(a: string, b: string, c: string)
    ensures a + (b + c) == (a + b) + c
  {
  }

  lemma JoinOfOne(a: string)
    ensures Join(UNIT, [a]) == a
  {
  }

  lemma JoinOfTwo(a: string, b: string)
    ensures Join(UNIT, [a, b]) == a + [UNIT] + b
  {
    JoinOfOne(b);
    assert [a, b][1..] == [b];
    Regroup(a, [UNIT], b);
  }

  /** U+001F in a changed file: one file is mistaken for two. */
  lemma UnitInFileCollides(r: Request, a: string, b: string, revision: nat)
    requires !StringOrder.Less(b, a)
    ensures r.(files := [a + [UNIT] + b]) != r.(files := [a, b])
    ensures Key(r.(files := [a + [UNIT] + b]), revision) == Key(r.(files := [a, b]), revision)
  {
    hide Join, Sort, Show, Print, StringOrder.Less;
    var one, two := r.(files := [a + [UNIT] + b]), r.(files := [a, b]);
    SortOfSorted(StringOrder.Less, one.files);
    SortOfSorted(StringOrder.Less, two.files);
    JoinOfOne(a + [UNIT] + b);
    JoinOfTwo(a, b);
    assert SortedFiles(one) == SortedFiles(two);
    assert |one.files| != |two.files|;
    hide Sorted, SortedFiles;
    assert Tail(one) == Tail(two);
  }

  /** Where four fields end makes no difference to the text. */
  lemma FieldsRegroup(e: string, x: string, t: string, z: string)
    ensures (e + [NUL] + x + [NUL] + t) + z == e + ([NUL] + (x + ([NUL] + (t + z))))
  {
    Regroup(e + [NUL] + x + [NUL], t, z);
    Regroup(e + [NUL] + x, [NUL], t + z);
    Regroup(e + [NUL], x, [NUL] + (t + z));
    Regroup(e, [NUL], x + ([NUL] + (t + z)));
  }

  /** Two ways to read the same text: the fields after the root, or a longer root. */
  lemma RootRegroups(root: string, n: string, rest: string)
    ensures (root + [NUL] + n + [NUL]) + ([NUL] + rest) == root + ([NUL] + (n + ([NUL] + ("" + ([NUL] + rest)))))
  {
    Regroup("", [NUL], rest);
    FieldsRegroup(root, n, "", [NUL] + rest);
    Regroup(root + [NUL] + n + [NUL], "", [NUL] + rest);
  }

  /** NUL in the root: a root that ends in one is mistaken for another root at another revision. */
  lemma NulInRootCollides(root: string, n: nat, r: Request, revision: nat)
    requires r.root == root + [NUL] + Print(n, 10) + [NUL]
    ensures var s := r.(root := root, intent := "", task := Print(revision, 10) + [NUL] + r.intent + [NUL] + r.task);
            s.root != r.root && Key(s, n) == Key(r, revision)
  {
    var s := r.(root := root, intent := "", task := Print(revision, 10) + [NUL] + r.intent + [NUL] + r.task);
    assert |r.root| > |root|;
    assert Tail(s) == Tail(r);
    hide Tail, Print;
    var rest := s.task + ([NUL] + Tail(r));
    FieldsRegroup(Print(revision, 10), r.intent, r.task, [NUL] + Tail(r));
    RootRegroups(root, Print(n, 10), rest);
  }

  // ---------------------------------------------------------------- eviction by root

  predicate StartsWith(s: string, prefix: string) {
    |prefix| <= |s| && s[..|prefix|] == prefix
  }

  predicate BelongsTo(key: string, root: string) {
    StartsWith(key, root + [NUL])
  }

  /** The eviction prefix of a root selects exactly the keys of that root. */
  lemma EvictionIsExact(r: Request, revision: nat, root: string)
    requires NUL !in r.root && NUL !in root
    ensures BelongsTo(Key(r, revision), root) <==> r.root == root
  {
    var rest := Print(revision, 10) + ([NUL] + (r.intent + ([NUL] + (r.task + ([NUL] + Tail(r))))));
    var key := Key(r, revision);
    assert key == r.root + ([NUL] + rest);
    if BelongsTo(key, root) {
      assert key == root + ([NUL] + key[|root| + 1..]);
      FirstField(NUL, r.root, rest, root, key[|root| + 1..]);
    }
    if r.root == root {
      assert key[..|root| + 1] == root + [NUL];
    }
  }
}
