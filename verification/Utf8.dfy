/** How characters are written in UTF-8, section 3 of RFC 3629. */
module Utf8 {
  import opened LineStream

  predicate IsTrailing(b: nat) {
    0x80 <= b <= 0xBF
  }

  /** The bytes of a character, in the shortest form there is. */
  predicate IsUtf8(c: char, bytes: seq<nat>) {
    var n := c as int;
    match |bytes|
    case 1 => bytes[0] <= 0x7F && n == bytes[0]
    case 2 => 0xC0 <= bytes[0] <= 0xDF && IsTrailing(bytes[1]) && n == (bytes[0] - 0xC0) * 64 + (bytes[1] - 0x80) && n > 0x7F
    case 3 =>
      && 0xE0 <= bytes[0] <= 0xEF && IsTrailing(bytes[1]) && IsTrailing(bytes[2])
      && n == (bytes[0] - 0xE0) * 4096 + (bytes[1] - 0x80) * 64 + (bytes[2] - 0x80) && n > 0x7FF
    case 4 =>
      && 0xF0 <= bytes[0] <= 0xF7 && IsTrailing(bytes[1]) && IsTrailing(bytes[2]) && IsTrailing(bytes[3])
      && n == (bytes[0] - 0xF0) * 262_144 + (bytes[1] - 0x80) * 4096 + (bytes[2] - 0x80) * 64 + (bytes[3] - 0x80) && n > 0xFFFF
    case _ => false
  }

  lemma LengthIsCounted(c: char)
    ensures forall other :: IsUtf8(c, other) ==> |other| == CharBytes(c)
  {
    forall other | IsUtf8(c, other) ensures |other| == CharBytes(c) {
      match |other|
      case 1 => assert |other| == 1;
      case 2 => assert |other| == 2;
      case 3 => assert |other| == 3;
      case 4 => assert |other| == 4;
    }
  }

  /** The last six bits and those before. */
  lemma InSixes(n: nat) returns (high: nat, low: nat)
    ensures n == high * 64 + low && low < 64
  {
    high, low := n / 64, n % 64;
  }

  /** Every character has its bytes, and they are as many as are counted. */
  lemma CharBytesIsExact(c: char) returns (bytes: seq<nat>)
    ensures IsUtf8(c, bytes)
    ensures forall other :: IsUtf8(c, other) ==> |other| == CharBytes(c)
  {
    var n := c as int;
    LengthIsCounted(c);
    var a, a' := InSixes(n);
    var b, b' := InSixes(a);
    var d, d' := InSixes(b);
    hide CharBytes;
    if n <= 0x7F {
      bytes := [n];
    } else if n <= 0x7FF {
      bytes := [0xC0 + a, 0x80 + a'];
    } else if n <= 0xFFFF {
      bytes := [0xE0 + b, 0x80 + b', 0x80 + a'];
    } else {
      bytes := [0xF0 + d, 0x80 + d', 0x80 + b', 0x80 + a'];
    }
  }

  /** The bytes of a text are those of its characters. */
  ghost predicate AreBytes(s: string, bytes: seq<nat>) {
    if s == [] then bytes == []
    else exists first, rest :: IsUtf8(s[0], first) && AreBytes(s[1..], rest) && bytes == first + rest
  }

  lemma {:induction false} ByteLengthIsExact(s: string) returns (bytes: seq<nat>)
    ensures AreBytes(s, bytes)
    ensures forall other :: AreBytes(s, other) ==> |other| == ByteLength(s)
  {
    if s == [] {
      bytes := [];
    } else {
      var first := CharBytesIsExact(s[0]);
      var rest := ByteLengthIsExact(s[1..]);
      bytes := first + rest;
      hide IsUtf8, CharBytes;
      forall other | AreBytes(s, other) ensures |other| == ByteLength(s) {
        var f, r :| IsUtf8(s[0], f) && AreBytes(s[1..], r) && other == f + r;
      }
    }
  }
}
