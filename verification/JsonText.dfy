/** The text of a JSON value, written out part by part. */
module JsonText {
  import opened Json
  import opened Letters

  /** What stands for a character between quotes: five control characters, the quote and the backslash have a letter of
      their own, other control characters their code. */
  function Spelled(c: char): string {
    match c as int
    case 8 => "\\b"
    case 9 => "\\t"
    case 10 => "\\n"
    case 12 => "\\f"
    case 13 => "\\r"
    case 34 => "\\\""
    case 92 => "\\\\"
    case n => if n < 32 then "\\u00" + (if n < 16 then "0" else "1") + ["0123456789abcdef"[n % 16]] else [c]
  }

  function Quoted(s: string): string {
    "\"" + SpelledAll(s) + "\""
  }

  function SpelledAll(s: string): string {
    if s == [] then "" else Spelled(s[0]) + SpelledAll(s[1..])
  }

  /** Parts with commas between them. */
  function Listed(parts: seq<string>): string {
    if parts == [] then "" else if |parts| == 1 then parts[0] else parts[0] + "," + Listed(parts[1..])
  }

  function TextOf(v: Json): string
    decreases v
  {
    match v
    case JNull => "null"
    case JBool(b) => if b then "true" else "false"
    case JNum(text) => text
    case JStr(s) => Quoted(s)
    case JArr(items) => "[" + Listed(TextsOf(items)) + "]"
    case JObj(fields) => "{" + Listed(FieldTextsOf(fields)) + "}"
  }

  function TextsOf(items: seq<Json>): seq<string>
    decreases items
  {
    if items == [] then [] else [TextOf(items[0])] + TextsOf(items[1..])
  }

  function FieldTextsOf(fields: seq<Field>): seq<string>
    decreases fields
  {
    if fields == [] then [] else [Quoted(fields[0].key) + ":" + TextOf(fields[0].value)] + FieldTextsOf(fields[1..])
  }

  lemma EscapeIsSpelled(c: char)
    ensures Escape(c) == Spelled(c)
  {
    if c as int < 32 {
      HexIsSpelled(c as int % 16);
      assert c as int / 16 == if c as int < 16 then 0 else 1;
      HexIsSpelled(c as int / 16);
    }
  }

  lemma HexIsSpelled(n: nat)
    requires n < 16
    ensures HexDigit(n) == "0123456789abcdef"[n]
  {
  }

  lemma {:induction false} CharsAreSpelled(s: string, rest: string)
    ensures CharsTo(s, rest) == SpelledAll(s) + rest
  {
    hide Escape, Spelled;
    if s != [] {
      EscapeIsSpelled(s[0]);
      CharsAreSpelled(s[1..], rest);
    }
  }

  lemma QuoteIsSpelled(s: string, rest: string)
    ensures QuoteTo(s, rest) == Quoted(s) + rest
  {
    CharsAreSpelled(s, ['"'] + rest);
  }

  lemma {:induction false} PrintIsTheText(v: Json, rest: string)
    ensures PrintTo(v, rest) == TextOf(v) + rest
    decreases v
  {
    hide QuoteTo, Quoted;
    match v
    case JStr(s) => QuoteIsSpelled(s, rest);
    case JArr(items) => ItemsAreListed(items, [']'] + rest);
    case JObj(fields) => FieldsAreListed(fields, ['}'] + rest);
    case _ =>
  }

  lemma ListedMore(part: string, parts: seq<string>)
    ensures Listed([part] + parts) == if parts == [] then part else part + "," + Listed(parts)
  {
    assert ([part] + parts)[1..] == parts;
  }

  lemma {:induction false} ItemsAreListed(items: seq<Json>, rest: string)
    ensures ItemsTo(items, rest) == Listed(TextsOf(items)) + rest
    decreases items
  {
    hide PrintTo, TextOf, Listed;
    if items == [] {
      assert Listed([]) == "" by {
        ListedNothing();
      }
    } else {
      ListedMore(TextOf(items[0]), TextsOf(items[1..]));
      if |items| == 1 {
        assert TextsOf(items[1..]) == [];
        PrintIsTheText(items[0], rest);
      } else {
        assert |TextsOf(items[1..])| > 0;
        ItemsAreListed(items[1..], rest);
        PrintIsTheText(items[0], [','] + ItemsTo(items[1..], rest));
      }
    }
  }

  lemma ListedNothing()
    ensures Listed([]) == ""
  {
  }

  lemma {:induction false} FieldsAreListed(fields: seq<Field>, rest: string)
    ensures FieldsTo(fields, rest) == Listed(FieldTextsOf(fields)) + rest
    decreases fields
  {
    hide PrintTo, TextOf, Listed, QuoteTo, Quoted;
    if fields == [] {
      assert Listed([]) == "" by {
        ListedNothing();
      }
    } else {
      var text := Quoted(fields[0].key) + ":" + TextOf(fields[0].value);
      ListedMore(text, FieldTextsOf(fields[1..]));
      var more := if |fields| == 1 then rest else [','] + FieldsTo(fields[1..], rest);
      PrintIsTheText(fields[0].value, more);
      QuoteIsSpelled(fields[0].key, [':'] + (TextOf(fields[0].value) + more));
      assert FieldsTo(fields, rest) == text + more;
      if |fields| == 1 {
        assert FieldTextsOf(fields[1..]) == [];
      } else {
        assert |FieldTextsOf(fields[1..])| > 0;
        FieldsAreListed(fields[1..], rest);
      }
    }
  }

  /** The text of a value is that of its parts. */
  lemma TextIsExact(v: Json)
    ensures Print(v) == TextOf(v)
  {
    PrintIsTheText(v, "");
  }

  // ---------------------------------------------------------------- numbers

  predicate AreSomeDigits(s: string) {
    s != "" && AreDigits(s)
  }

  /** A number as JSON writes it: perhaps a sign, digits, perhaps a fraction, perhaps an exponent. */
  ghost predicate IsJsonNumber(s: string) {
    exists sign, digits, fraction, exponent ::
      && sign in ["", "-"] && AreSomeDigits(digits) && IsFraction(fraction) && IsExponent(exponent)
      && s == sign + digits + fraction + exponent
  }

  predicate IsFraction(s: string) {
    s == "" || (s[0] == '.' && AreSomeDigits(s[1..]))
  }

  predicate IsExponent(s: string) {
    s == "" || (s[0] in "eE" && (AreSomeDigits(s[1..]) || (|s| > 2 && s[1] in "+-" && AreSomeDigits(s[2..]))))
  }

  lemma DigitsAreNumberChars(s: string)
    requires AreSomeDigits(s)
    ensures '0' <= s[0] <= '9' && forall c | c in s :: IsNumberChar(c)
  {
    assert s[0] in s;
    forall c | c in s ensures '0' <= c <= '9' {
      DigitsAreARange(c);
    }
  }

  lemma JoinedChars(a: string, b: string)
    requires (forall c | c in a :: IsNumberChar(c)) && forall c | c in b :: IsNumberChar(c)
    ensures forall c | c in a + b :: IsNumberChar(c)
  {
  }

  lemma FractionHasNumberChars(s: string)
    requires IsFraction(s)
    ensures forall c | c in s :: IsNumberChar(c)
  {
    if s != "" {
      DigitsAreNumberChars(s[1..]);
      JoinedChars(s[..1], s[1..]);
      assert s == s[..1] + s[1..];
    }
  }

  lemma ExponentHasNumberChars(s: string)
    requires IsExponent(s)
    ensures forall c | c in s :: IsNumberChar(c)
  {
    if s != "" {
      if AreSomeDigits(s[1..]) {
        DigitsAreNumberChars(s[1..]);
        JoinedChars(s[..1], s[1..]);
        assert s == s[..1] + s[1..];
      } else {
        DigitsAreNumberChars(s[2..]);
        JoinedChars(s[..2], s[2..]);
        assert s == s[..2] + s[2..];
      }
    }
  }

  /** Every number that JSON can write is among the numbers here. */
  lemma NumbersAreAllowed(s: string)
    requires IsJsonNumber(s)
    ensures WellFormed(JNum(s))
  {
    var sign, digits, fraction, exponent :|
      && sign in ["", "-"] && AreSomeDigits(digits) && IsFraction(fraction) && IsExponent(exponent)
      && s == sign + digits + fraction + exponent;
    DigitsAreNumberChars(digits);
    FractionHasNumberChars(fraction);
    ExponentHasNumberChars(exponent);
    hide AreSomeDigits, IsFraction, IsExponent;
    assert forall c | c in sign :: IsNumberChar(c);
    assert digits != "" by {
      assert |digits| > 0;
    }
    hide IsNumberChar;
    JoinedChars(sign, digits);
    JoinedChars(sign + digits, fraction);
    JoinedChars(sign + digits + fraction, exponent);
    assert s[0] == if sign == "" then digits[0] else '-';
  }
}
