/**
 * JavaScript strings as the register form sees them.
 *
 * A Dafny `string` is a sequence of Unicode scalar values, while a JavaScript
 * string is a sequence of UTF-16 code units: `pass1.length` counts code units,
 * and a `RegExp` without the `u` flag matches code unit by code unit. This
 * module gives that view explicitly, so that the length check and the e-mail
 * pattern of the form are stated over what JavaScript actually measures.
 */
module JsString {

  /** One UTF-16 code unit. */
  type CodeUnit = u: int | 0 <= u < 0x1_0000

  /** True for a scalar value that UTF-16 stores in a single code unit. */
  predicate InBmp(c: char) {
    c as int < 0x1_0000
  }

  /** A leading (high) surrogate code unit. */
  predicate IsHighSurrogate(u: CodeUnit) {
    0xD800 <= u < 0xDC00
  }

  /** A trailing (low) surrogate code unit. */
  predicate IsLowSurrogate(u: CodeUnit) {
    0xDC00 <= u < 0xE000
  }

  /** The UTF-16 encoding of one scalar value: itself, or a surrogate pair. */
  function EncodeChar(c: char): (r: seq<CodeUnit>)
    ensures InBmp(c) ==> r == [c as int] && !IsHighSurrogate(r[0]) && !IsLowSurrogate(r[0])
    ensures !InBmp(c) ==> |r| == 2 && IsHighSurrogate(r[0]) && IsLowSurrogate(r[1])
    ensures !InBmp(c) ==> c as int == 0x1_0000 + (r[0] as int - 0xD800) * 0x400 + (r[1] as int - 0xDC00)
  {
    if InBmp(c) then [c as int]
    else
      var v := c as int - 0x1_0000;
      [0xD800 + v / 0x400, 0xDC00 + v % 0x400]
  }

  /** The code units of a string, as JavaScript stores it. */
  function Utf16(s: string): seq<CodeUnit>
  {
    if s == [] then [] else EncodeChar(s[0]) + Utf16(s[1..])
  }

  /** `s.length` in JavaScript: the number of UTF-16 code units. */
  function Length(s: string): nat
  {
    |Utf16(s)|
  }

  /** The number of scalar values of `s` outside the Basic Multilingual Plane. */
  function AstralCount(s: string): nat
  {
    if s == [] then 0 else (if InBmp(s[0]) then 0 else 1) + AstralCount(s[1..])
  }

  /**
   * `s.length` counts every scalar value once and every astral one twice, so
   * it agrees with `|s|` exactly when `s` lies in the Basic Multilingual Plane.
   */
  lemma {:induction false} LengthCountsSurrogatePairs(s: string)
    ensures Length(s) == |s| + AstralCount(s)
    ensures |s| <= Length(s) <= 2 * |s|
    ensures Length(s) == |s| <==> forall i :: 0 <= i < |s| ==> InBmp(s[i])
  {
    if s != [] {
      LengthCountsSurrogatePairs(s[1..]);
      assert forall i :: 1 <= i < |s| ==> s[i] == s[1..][i - 1];
      if forall i :: 0 <= i < |s| ==> InBmp(s[i]) {
        assert forall i :: 0 <= i < |s| - 1 ==> InBmp(s[1..][i]) by {
          forall i | 0 <= i < |s| - 1 ensures InBmp(s[1..][i]) {
            assert s[1..][i] == s[i + 1];
          }
        }
      }
    }
  }

  /**
   * A code unit below the surrogate range occurs in the encoding exactly when
   * the character with that value occurs in the string.
   */
  lemma {:induction false} Utf16ContainsBmpChar(s: string, c: char)
    requires c as int < 0xD800
    ensures (c as int in Utf16(s)) <==> c in s
  {
    if s != [] {
      Utf16ContainsBmpChar(s[1..], c);
      assert Utf16(s) == EncodeChar(s[0]) + Utf16(s[1..]);
      assert s == [s[0]] + s[1..];
    }
  }

  /**
   * Encoding is injective, so JavaScript's `===` on code units and `==` on
   * Dafny strings decide the same question.
   */
  lemma {:induction false} Utf16Injective(a: string, b: string)
    requires Utf16(a) == Utf16(b)
    ensures a == b
  {
    if a != [] && b != [] {
      var ea, eb := EncodeChar(a[0]), EncodeChar(b[0]);
      assert Utf16(a) == ea + Utf16(a[1..]);
      assert Utf16(b) == eb + Utf16(b[1..]);
      assert Utf16(a)[0] == ea[0] && Utf16(b)[0] == eb[0];
      if !InBmp(a[0]) {
        assert Utf16(a)[1] == ea[1] && Utf16(b)[1] == eb[1];
      }
      assert ea == eb;
      assert a[0] == b[0];
      assert Utf16(a[1..]) == Utf16(a)[|ea|..] == Utf16(b)[|eb|..] == Utf16(b[1..]);
      Utf16Injective(a[1..], b[1..]);
      assert a == [a[0]] + a[1..] && b == [b[0]] + b[1..];
    }
  }

  /** A string inside the Basic Multilingual Plane is stored one code unit per character. */
  lemma {:induction false} Utf16OfBmp(s: string)
    requires forall i :: 0 <= i < |s| ==> InBmp(s[i])
    ensures |Utf16(s)| == |s|
    ensures forall i :: 0 <= i < |s| ==> Utf16(s)[i] == s[i] as int
  {
    if s != [] {
      assert forall i :: 0 <= i < |s| - 1 ==> s[1..][i] == s[i + 1];
      Utf16OfBmp(s[1..]);
    }
  }

  /** JavaScript's `===` on strings, which compares code units, agrees with `==`. */
  lemma StrictEquality(a: string, b: string)
    ensures a == b <==> Utf16(a) == Utf16(b)
  {
    if Utf16(a) == Utf16(b) {
      Utf16Injective(a, b);
    }
  }
}
