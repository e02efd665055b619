/**
 UTF-8 as section 4 of RFC 3629 defines it, which is what the archive tool takes for a path: the
 scan over the bytes, and the encoding of the characters that it is to accept.
 */
module Utf8 {
  import opened Bytes

  /** A character: any code point that is not one half of a surrogate pair. */
  predicate Scalar(c: nat) {
    c < 0xD800 || 0xE000 <= c < 0x11_0000
  }

  predicate AllScalars(text: seq<nat>) {
    forall i :: 0 <= i < |text| ==> Scalar(text[i])
  }

  function EncodeChar(c: nat): (r: seq<Byte>)
    requires Scalar(c)
    ensures |r| > 0
  {
    if c < 0x80 then [c]
    else if c < 0x800 then [0xC0 + c / 64, 0x80 + c % 64]
    else if c < 0x1_0000 then [0xE0 + c / 64 / 64, 0x80 + c / 64 % 64, 0x80 + c % 64]
    else [0xF0 + c / 64 / 64 / 64, 0x80 + c / 64 / 64 % 64, 0x80 + c / 64 % 64, 0x80 + c % 64]
  }

  function EncodeText(text: seq<nat>): seq<Byte>
    requires AllScalars(text)
  {
    if text == [] then [] else EncodeChar(text[0]) + EncodeText(text[1..])
  }

  predicate Tail(b: Byte) {
    0x80 <= b <= 0xBF
  }

  /** The length of the character that the bytes start with, or 0 if they do not start with one. */
  function CharLength(s: seq<Byte>): (n: nat)
    ensures n <= |s|
  {
    if s == [] then 0
    else if s[0] < 0x80 then 1
    else if |s| < 2 || !Tail(s[1]) then 0
    else if 0xC2 <= s[0] <= 0xDF then 2
    else if |s| < 3 || !Tail(s[2]) then 0
    else if 0xE0 <= s[0] <= 0xEF then
      if (s[0] == 0xE0 && s[1] < 0xA0) || (s[0] == 0xED && s[1] > 0x9F) then 0 else 3
    else if |s| < 4 || !Tail(s[3]) || !(0xF0 <= s[0] <= 0xF4) then 0
    else if (s[0] == 0xF0 && s[1] < 0x90) || (s[0] == 0xF4 && s[1] > 0x8F) then 0
    else 4
  }

  predicate IsText(s: seq<Byte>) {
    s == [] || (CharLength(s) > 0 && IsText(s[CharLength(s)..]))
  }

  /** A number with one more digit in base 64. */
  function Digit(high: nat, low: nat): nat {
    high * 64 + low
  }

  lemma Digits(high: nat, low: nat)
    requires low < 64
    ensures Digit(high, low) / 64 == high && Digit(high, low) % 64 == low
  {
  }

  /** The character that the bytes start with. */
  function FirstChar(s: seq<Byte>): nat
    requires CharLength(s) > 0
  {
    var n := CharLength(s);
    if n == 1 then s[0]
    else if n == 2 then Digit(s[0] - 0xC0, s[1] - 0x80)
    else if n == 3 then Digit(Digit(s[0] - 0xE0, s[1] - 0x80), s[2] - 0x80)
    else Digit(Digit(Digit(s[0] - 0xF0, s[1] - 0x80), s[2] - 0x80), s[3] - 0x80)
  }

  lemma StartsWith(c: nat, rest: seq<Byte>)
    requires Scalar(c)
    ensures CharLength(EncodeChar(c) + rest) == |EncodeChar(c)|
  {
    var first, s := EncodeChar(c), EncodeChar(c) + rest;
    assert forall i :: 0 <= i < |first| ==> s[i] == first[i];
    if 0x800 <= c < 0x1_0000 {
      ThreeBytes(c);
    } else if c >= 0x1_0000 {
      FourBytes(c);
    }
  }

  lemma ThreeBytes(c: nat)
    requires Scalar(c) && 0x800 <= c < 0x1_0000
    ensures var e := EncodeChar(c);
      |e| == 3 && 0xE0 <= e[0] <= 0xEF && !(e[0] == 0xE0 && e[1] < 0xA0) && !(e[0] == 0xED && e[1] > 0x9F)
  {
  }

  lemma FourBytes(c: nat)
    requires Scalar(c) && c >= 0x1_0000
    ensures var e := EncodeChar(c);
      |e| == 4 && 0xF0 <= e[0] <= 0xF4 && !(e[0] == 0xF0 && e[1] < 0x90) && !(e[0] == 0xF4 && e[1] > 0x8F)
  {
  }

  lemma FirstEncoded(s: seq<Byte>)
    requires CharLength(s) > 0
    ensures Scalar(FirstChar(s)) && s[..CharLength(s)] == EncodeChar(FirstChar(s))
  {
    var n := CharLength(s);
    if n == 1 {
    } else if n == 2 {
      Digits(s[0] - 0xC0, s[1] - 0x80);
    } else if n == 3 {
      FirstOfThree(s);
    } else {
      FirstOfFour(s);
    }
  }

  lemma FirstOfThree(s: seq<Byte>)
    requires CharLength(s) == 3
    ensures Scalar(FirstChar(s)) && s[..3] == EncodeChar(FirstChar(s))
  {
    var high := Digit(s[0] - 0xE0, s[1] - 0x80);
    Digits(s[0] - 0xE0, s[1] - 0x80);
    Digits(high, s[2] - 0x80);
    assert 32 <= high < 1024 && !(0x360 <= high < 0x380);
  }

  lemma FirstOfFour(s: seq<Byte>)
    requires CharLength(s) == 4
    ensures Scalar(FirstChar(s)) && s[..4] == EncodeChar(FirstChar(s))
  {
    var top := Digit(s[0] - 0xF0, s[1] - 0x80);
    var high := Digit(top, s[2] - 0x80);
    Digits(s[0] - 0xF0, s[1] - 0x80);
    Digits(top, s[2] - 0x80);
    Digits(high, s[3] - 0x80);
    assert 16 <= top < 0x110;
  }

  /** The scan accepts what is encoded. */
  lemma {:induction false} EncodedIsText(text: seq<nat>)
    requires AllScalars(text)
    ensures IsText(EncodeText(text))
  {
    if text != [] {
      EncodedIsText(text[1..]);
      var first, rest := EncodeChar(text[0]), EncodeText(text[1..]);
      StartsWith(text[0], rest);
      assert (first + rest)[|first|..] == rest;
    }
  }

  /** The scan accepts nothing else. */
  lemma {:induction false} TextIsEncoded(s: seq<Byte>) returns (text: seq<nat>)
    requires IsText(s)
    ensures AllScalars(text) && EncodeText(text) == s
  {
    if s == [] {
      text := [];
    } else {
      var rest := TextIsEncoded(s[CharLength(s)..]);
      text := [FirstChar(s)] + rest;
      TextStep(s, rest);
    }
  }

  lemma TextStep(s: seq<Byte>, rest: seq<nat>)
    requires CharLength(s) > 0 && AllScalars(rest) && EncodeText(rest) == s[CharLength(s)..]
    ensures AllScalars([FirstChar(s)] + rest) && EncodeText([FirstChar(s)] + rest) == s
  {
    FirstEncoded(s);
    EncodeFirst(FirstChar(s), rest);
  }

  lemma EncodeFirst(c: nat, rest: seq<nat>)
    requires Scalar(c) && AllScalars(rest)
    ensures AllScalars([c] + rest) && EncodeText([c] + rest) == EncodeChar(c) + EncodeText(rest)
  {
    assert ([c] + rest)[1..] == rest;
  }

  /** The examples in section 7 of RFC 3629: three characters of two lengths, and one of four bytes. */
  lemma Rfc3629()
    ensures EncodeChar(0x41) == [0x41] && EncodeChar(0x391) == [0xCE, 0x91] && EncodeChar(0x2262) == [0xE2, 0x89, 0xA2]
    ensures EncodeChar(0x233B4) == [0xF0, 0xA3, 0x8E, 0xB4]
  {
  }
}
