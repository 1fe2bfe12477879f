/** JSON values and the text `JSON.stringify` gives them, with the proof that the text determines the value. */
module Json {

  /** Numbers are held by their JSON text. The fields of an object are in enumeration order. */
  datatype Json = JNull | JBool(b: bool) | JNum(text: string) | JStr(s: string) | JArr(items: seq<Json>) | JObj(fields: seq<Field>)

  datatype Field = Field(key: string, value: Json)

  predicate IsNumberChar(c: char) {
    '0' <= c <= '9' || c == '-' || c == '+' || c == '.' || c == 'e' || c == 'E'
  }

  predicate IsNumberText(s: string) {
    s != [] && (s[0] == '-' || '0' <= s[0] <= '9') && forall c | c in s :: IsNumberChar(c)
  }

  ghost predicate DistinctKeys(fields: seq<Field>) {
    forall i, j | 0 <= i < j < |fields| :: fields[i].key != fields[j].key
  }

  ghost predicate WellFormed(v: Json)
    decreases v
  {
    match v
    case JNum(text) => IsNumberText(text)
    case JArr(items) => forall i | 0 <= i < |items| :: WellFormed(items[i])
    case JObj(fields) => DistinctKeys(fields) && forall i | 0 <= i < |fields| :: WellFormed(fields[i].value)
    case _ => true
  }

  // ---------------------------------------------------------------- printing, in front of a rest

  function HexDigit(n: nat): char
    requires n < 16
  {
    if n < 10 then (('0' as int) + n) as char else (('a' as int) + n - 10) as char
  }

  function Escape(c: char): string {
    if c == '"' then ['\\', '"']
    else if c == '\\' then ['\\', '\\']
    else if c as int == 8 then ['\\', 'b']
    else if c as int == 9 then ['\\', 't']
    else if c as int == 10 then ['\\', 'n']
    else if c as int == 12 then ['\\', 'f']
    else if c as int == 13 then ['\\', 'r']
    else if c as int < 32 then ['\\', 'u', '0', '0', HexDigit(c as int / 16), HexDigit(c as int % 16)]
    else [c]
  }

  function CharsTo(s: string, rest: string): string {
    if s == [] then rest else Escape(s[0]) + CharsTo(s[1..], rest)
  }

  function QuoteTo(s: string, rest: string): string {
    ['"'] + CharsTo(s, ['"'] + rest)
  }

  /** The text of `v`, followed by `rest`. */
  function PrintTo(v: Json, rest: string): string
    decreases v
  {
    match v
    case JNull => "null" + rest
    case JBool(b) => (if b then "true" else "false") + rest
    case JNum(text) => text + rest
    case JStr(s) => QuoteTo(s, rest)
    case JArr(items) => ['['] + ItemsTo(items, [']'] + rest)
    case JObj(fields) => ['{'] + FieldsTo(fields, ['}'] + rest)
  }

  function ItemsTo(items: seq<Json>, rest: string): string
    decreases items
  {
    if items == [] then rest
    else PrintTo(items[0], if |items| == 1 then rest else [','] + ItemsTo(items[1..], rest))
  }

  function FieldsTo(fields: seq<Field>, rest: string): string
    decreases fields
  {
    if fields == [] then rest
    else
      var value := PrintTo(fields[0].value, if |fields| == 1 then rest else [','] + FieldsTo(fields[1..], rest));
      QuoteTo(fields[0].key, [':'] + value)
  }

  function Print(v: Json): string {
    PrintTo(v, "")
  }

  // ---------------------------------------------------------------- strings

  lemma EscapeStart(c: char)
    ensures Escape(c) != [] && Escape(c)[0] != '"'
    ensures Escape(c)[0] == '\\' <==> |Escape(c)| > 1
    ensures |Escape(c)| == 1 ==> Escape(c) == [c]
  {
  }

  /** Two escapes that agree on their first two characters have the same length. */
  lemma EscapeSecond(c: char, d: char)
    requires |Escape(c)| > 1 && |Escape(d)| > 1 && Escape(c)[1] == Escape(d)[1]
    ensures |Escape(c)| == |Escape(d)|
    ensures Escape(c) == Escape(d) ==> c == d
  {
    if |Escape(c)| == 6 && Escape(c) == Escape(d) {
      assert Escape(c)[4] == HexDigit(c as int / 16) && Escape(c)[5] == HexDigit(c as int % 16);
      assert Escape(d)[4] == HexDigit(d as int / 16) && Escape(d)[5] == HexDigit(d as int % 16);
    }
  }

  lemma EscapeInjective(c: char, d: char, x: string, y: string)
    requires Escape(c) + x == Escape(d) + y
    ensures c == d && x == y
  {
    EscapeStart(c);
    EscapeStart(d);
    var e, f := Escape(c), Escape(d);
    hide Escape;
    assert (e + x)[0] == e[0] && (f + y)[0] == f[0];
    if |e| > 1 {
      assert (e + x)[1] == e[1] && (f + y)[1] == f[1];
      EscapeSecond(c, d);
    }
    assert |e| == |f|;
    assert (e + x)[..|e|] == e && (f + y)[..|f|] == f;
    assert (e + x)[|e|..] == x && (f + y)[|f|..] == y;
  }

  lemma {:induction false} CharsInjective(s: string, t: string, x: string, y: string)
    requires CharsTo(s, ['"'] + x) == CharsTo(t, ['"'] + y)
    ensures s == t && x == y
  {
    hide Escape;
    CharsStart(s, x);
    CharsStart(t, y);
    if s == [] {
      assert (['"'] + x)[1..] == x && (['"'] + y)[1..] == y;
    } else {
      EscapeInjective(s[0], t[0], CharsTo(s[1..], ['"'] + x), CharsTo(t[1..], ['"'] + y));
      CharsInjective(s[1..], t[1..], x, y);
      assert s == [s[0]] + s[1..] && t == [t[0]] + t[1..];
    }
  }

  lemma CharsStart(s: string, x: string)
    ensures CharsTo(s, ['"'] + x) != [] && (CharsTo(s, ['"'] + x)[0] == '"' <==> s == [])
  {
    if s != [] {
      EscapeStart(s[0]);
    }
  }

  lemma QuoteInjective(s: string, t: string, x: string, y: string)
    requires QuoteTo(s, x) == QuoteTo(t, y)
    ensures s == t && x == y
  {
    assert QuoteTo(s, x)[1..] == CharsTo(s, ['"'] + x);
    assert QuoteTo(t, y)[1..] == CharsTo(t, ['"'] + y);
    CharsInjective(s, t, x, y);
  }

  // ---------------------------------------------------------------- values

  /** What may follow a value: the end, a comma or a closing bracket. */
  predicate Closed(rest: string) {
    rest == [] || rest[0] == ',' || rest[0] == ']' || rest[0] == '}'
  }

  lemma {:induction false} NumberInjective(s: string, t: string, x: string, y: string)
    requires (forall c | c in s :: IsNumberChar(c)) && (forall c | c in t :: IsNumberChar(c))
    requires Closed(x) && Closed(y) && s + x == t + y
    ensures s == t && x == y
  {
    var l, r := s + x, t + y;
    assert forall k | 0 <= k < |s| :: l[k] == s[k] && s[k] in s;
    assert forall k | 0 <= k < |t| :: r[k] == t[k] && t[k] in t;
    assert x != [] ==> l[|s|] == x[0];
    assert y != [] ==> r[|t|] == y[0];
    assert |l| == |s| + |x| && |r| == |t| + |y|;
    assert |s| == |t|;
    assert l[..|s|] == s && r[..|t|] == t && l[|s|..] == x && r[|t|..] == y;
  }

  datatype Kind = KNull | KTrue | KFalse | KNumber | KString | KArray | KObject | KNone

  function KindOf(c: char): Kind {
    if c == 'n' then KNull
    else if c == 't' then KTrue
    else if c == 'f' then KFalse
    else if c == '"' then KString
    else if c == '[' then KArray
    else if c == '{' then KObject
    else if c == '-' || '0' <= c <= '9' then KNumber
    else KNone
  }

  function KindOfValue(v: Json): Kind {
    match v
    case JNull => KNull
    case JBool(b) => if b then KTrue else KFalse
    case JNum(_) => KNumber
    case JStr(_) => KString
    case JArr(_) => KArray
    case JObj(_) => KObject
  }

  /** The first character of a value's text tells what kind of value it is. */
  lemma FirstCharTellsKind(v: Json, rest: string)
    requires WellFormed(v)
    ensures PrintTo(v, rest) != [] && KindOf(PrintTo(v, rest)[0]) == KindOfValue(v)
  {
  }

  /** The text of a value, up to what may follow it, determines the value and the rest. */
  lemma {:induction false} PrintInjective(a: Json, b: Json, x: string, y: string)
    requires WellFormed(a) && WellFormed(b) && Closed(x) && Closed(y) && PrintTo(a, x) == PrintTo(b, y)
    ensures a == b && x == y
    decreases a, 0
  {
    FirstCharTellsKind(a, x);
    FirstCharTellsKind(b, y);
    match a
    case JNull => assert PrintTo(a, x)[4..] == x && PrintTo(b, y)[4..] == y;
    case JBool(c) =>
      var n := if c then 4 else 5;
      assert PrintTo(a, x)[n..] == x && PrintTo(b, y)[n..] == y;
    case JNum(text) => NumberInjective(text, b.text, x, y);
    case JStr(s) => QuoteInjective(s, b.s, x, y);
    case JArr(items) =>
      assert PrintTo(a, x)[1..] == ItemsTo(items, [']'] + x) && PrintTo(b, y)[1..] == ItemsTo(b.items, [']'] + y);
      ItemsInjective(items, b.items, x, y);
    case JObj(fields) =>
      assert PrintTo(a, x)[1..] == FieldsTo(fields, ['}'] + x) && PrintTo(b, y)[1..] == FieldsTo(b.fields, ['}'] + y);
      FieldsInjective(fields, b.fields, x, y);
  }

  /** What follows the first of several items or fields. */
  lemma RestInjective(more: bool, more': bool, close: char, tail: string, tail': string, x: string, y: string)
    requires close == ']' || close == '}'
    requires (if more then [','] + tail else [close] + x) == (if more' then [','] + tail' else [close] + y)
    ensures more == more' && (more ==> tail == tail') && (!more ==> x == y)
  {
    assert more ==> ([','] + tail)[0] == ',' && ([','] + tail)[1..] == tail;
    assert more' ==> ([','] + tail')[0] == ',' && ([','] + tail')[1..] == tail';
    assert !more ==> ([close] + x)[0] == close && ([close] + x)[1..] == x;
    assert !more' ==> ([close] + y)[0] == close && ([close] + y)[1..] == y;
  }

  lemma {:induction false} ItemsInjective(xs: seq<Json>, ys: seq<Json>, x: string, y: string)
    requires (forall i | 0 <= i < |xs| :: WellFormed(xs[i])) && (forall i | 0 <= i < |ys| :: WellFormed(ys[i]))
    requires ItemsTo(xs, [']'] + x) == ItemsTo(ys, [']'] + y)
    ensures xs == ys && x == y
    decreases xs, 1
  {
    hide WellFormed, KindOf;
    ItemsStart(xs, x);
    ItemsStart(ys, y);
    if xs == [] {
      assert ([']'] + x)[1..] == x && ([']'] + y)[1..] == y;
    } else {
      var r := if |xs| == 1 then [']'] + x else [','] + ItemsTo(xs[1..], [']'] + x);
      var s := if |ys| == 1 then [']'] + y else [','] + ItemsTo(ys[1..], [']'] + y);
      PrintInjective(xs[0], ys[0], r, s);
      RestInjective(|xs| > 1, |ys| > 1, ']', ItemsTo(xs[1..], [']'] + x), ItemsTo(ys[1..], [']'] + y), x, y);
      if |xs| > 1 {
        ItemsInjective(xs[1..], ys[1..], x, y);
      }
      assert xs == [xs[0]] + xs[1..] && ys == [ys[0]] + ys[1..];
    }
  }

  lemma {:induction false} ItemsStart(xs: seq<Json>, x: string)
    requires xs != [] ==> WellFormed(xs[0])
    ensures ItemsTo(xs, [']'] + x) != [] && (KindOf(ItemsTo(xs, [']'] + x)[0]) == KNone <==> xs == [])
  {
    if xs != [] {
      hide PrintTo;
      FirstCharTellsKind(xs[0], if |xs| == 1 then [']'] + x else [','] + ItemsTo(xs[1..], [']'] + x));
    }
  }

  lemma {:induction false} FieldsInjective(xs: seq<Field>, ys: seq<Field>, x: string, y: string)
    requires (forall i | 0 <= i < |xs| :: WellFormed(xs[i].value)) && (forall i | 0 <= i < |ys| :: WellFormed(ys[i].value))
    requires FieldsTo(xs, ['}'] + x) == FieldsTo(ys, ['}'] + y)
    ensures xs == ys && x == y
    decreases xs, 1
  {
    hide WellFormed, QuoteTo;
    if xs == [] || ys == [] {
      FieldsStart(xs, x);
      FieldsStart(ys, y);
      assert (['}'] + x)[1..] == x && (['}'] + y)[1..] == y;
    } else {
      var r := if |xs| == 1 then ['}'] + x else [','] + FieldsTo(xs[1..], ['}'] + x);
      var s := if |ys| == 1 then ['}'] + y else [','] + FieldsTo(ys[1..], ['}'] + y);
      FirstFieldInjective(xs[0], ys[0], r, s);
      PrintInjective(xs[0].value, ys[0].value, r, s);
      RestInjective(|xs| > 1, |ys| > 1, '}', FieldsTo(xs[1..], ['}'] + x), FieldsTo(ys[1..], ['}'] + y), x, y);
      if |xs| > 1 {
        FieldsInjective(xs[1..], ys[1..], x, y);
      }
      assert xs == [xs[0]] + xs[1..] && ys == [ys[0]] + ys[1..];
    }
  }

  lemma FirstFieldInjective(f: Field, g: Field, r: string, s: string)
    requires QuoteTo(f.key, [':'] + PrintTo(f.value, r)) == QuoteTo(g.key, [':'] + PrintTo(g.value, s))
    ensures f.key == g.key && PrintTo(f.value, r) == PrintTo(g.value, s)
  {
    hide QuoteTo, PrintTo;
    QuoteInjective(f.key, g.key, [':'] + PrintTo(f.value, r), [':'] + PrintTo(g.value, s));
    assert ([':'] + PrintTo(f.value, r))[1..] == PrintTo(f.value, r);
    assert ([':'] + PrintTo(g.value, s))[1..] == PrintTo(g.value, s);
  }

  lemma {:induction false} FieldsStart(xs: seq<Field>, x: string)
    ensures FieldsTo(xs, ['}'] + x) != [] && (FieldsTo(xs, ['}'] + x)[0] == '}' <==> xs == [])
  {
  }

  /** Distinct values have distinct texts. */
  lemma TextDeterminesValue(a: Json, b: Json)
    requires WellFormed(a) && WellFormed(b) && Print(a) == Print(b)
    ensures a == b
  {
    PrintInjective(a, b, "", "");
  }
}
