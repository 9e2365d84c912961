/**
 Text as its UTF-8 bytes, and lowercase hexadecimal (src/core/report.rs, src/core/plan.rs).
 */
module Hex {
  import opened Basics
  import opened Order

  type Text = seq<byte>

  const SLASH: byte := 47

  function AsciiByte(c: char): byte {
    if c < 128 as char then c as int else 63
  }

  // A literal of this source; nothing outside ASCII is ever written.
  function Ascii(s: string): (t: Text)
    ensures |t| == |s| && forall i :: 0 <= i < |s| ==> t[i] == AsciiByte(s[i])
  {
    seq(|s|, i requires 0 <= i < |s| => AsciiByte(s[i]))
  }

  function Digit(n: int): byte
    requires 0 <= n < 16
  {
    if n < 10 then 48 + n else 87 + n
  }

  predicate IsDigit(c: byte) {
    48 <= c <= 57 || 97 <= c <= 102
  }

  function DigitValue(c: byte): (n: int)
    requires IsDigit(c)
    ensures 0 <= n < 16 && Digit(n) == c
  {
    if c <= 57 then c - 48 else c - 87
  }

  function ToHex(b: seq<byte>): (t: Text)
    ensures |t| == 2 * |b|
  {
    if b == [] then [] else [Digit(b[0] / 16), Digit(b[0] % 16)] + ToHex(b[1..])
  }

  predicate IsHex(t: Text) {
    |t| % 2 == 0 && forall c :: c in t ==> IsDigit(c)
  }

  function Decode(t: Text): (b: seq<byte>)
    requires IsHex(t)
    ensures |t| == 2 * |b|
  {
    if t == [] then []
    else
      assert t[0] in t && t[1] in t && forall c :: c in t[2..] ==> c in t;
      [16 * DigitValue(t[0]) + DigitValue(t[1])] + Decode(t[2..])
  }

  // Strict: odd lengths, upper case and anything else are refused.
  function Unhex(t: Text): Result<seq<byte>> {
    if IsHex(t) then Ok(Decode(t)) else Err
  }

  lemma {:induction false} UnhexInvertsToHex(b: seq<byte>)
    ensures Unhex(ToHex(b)) == Ok(b)
  {
    if b != [] {
      var t := ToHex(b);
      UnhexInvertsToHex(b[1..]);
      assert t[2..] == ToHex(b[1..]);
      forall c | c in t ensures IsDigit(c) {
        assert c == t[0] || c == t[1] || c in t[2..];
      }
      assert b == [b[0]] + b[1..];
    }
  }

  lemma {:induction false} ToHexInvertsUnhex(t: Text)
    requires Unhex(t).Ok?
    ensures ToHex(Unhex(t).value) == t
  {
    if t != [] {
      assert t[0] in t && t[1] in t && forall c :: c in t[2..] ==> c in t;
      ToHexInvertsUnhex(t[2..]);
      var b := Decode(t);
      assert b[1..] == Decode(t[2..]);
      assert b[0] / 16 == DigitValue(t[0]) && b[0] % 16 == DigitValue(t[1]);
      assert t == [t[0], t[1]] + t[2..];
    }
  }

  lemma DecodeInjective(s: Text, t: Text)
    requires IsHex(s) && IsHex(t) && Decode(s) == Decode(t)
    ensures s == t
  {
    ToHexInvertsUnhex(s);
    ToHexInvertsUnhex(t);
  }

  // Hex keeps byte order, so sorting rendered paths sorts the paths.
  lemma {:induction false} HexKeepsOrder(a: seq<byte>, b: seq<byte>)
    ensures LexLe(ToHex(a), ToHex(b)) <==> LexLe(a, b)
  {
    if a != [] && b != [] {
      HexKeepsOrder(a[1..], b[1..]);
      var s, t := ToHex(a), ToHex(b);
      assert s[1..][1..] == ToHex(a[1..]) && t[1..][1..] == ToHex(b[1..]);
      assert LexLe(s, t) <==> s[0] < t[0] || (s[0] == t[0] && LexLe(s[1..], t[1..]));
      assert LexLe(s[1..], t[1..]) <==> s[1] < t[1] || (s[1] == t[1] && LexLe(ToHex(a[1..]), ToHex(b[1..])));
      assert a[0] == 16 * (a[0] / 16) + a[0] % 16 && b[0] == 16 * (b[0] / 16) + b[0] % 16;
    }
  }
}
