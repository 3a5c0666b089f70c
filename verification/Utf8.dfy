/** Well-formed UTF-8 over bytes. */
module Utf8 {
  import opened Text

  predicate Continuation(b: Byte) {
    0x80 <= b < 0xC0
  }

  /** Length of the well-formed UTF-8 sequence at the front, 0 if there is none (table 3-7 of the
      Unicode standard). */
  function RuneLength(s: Bytes): nat
    requires s != []
    ensures RuneLength(s) <= |s|
  {
    var b := s[0];
    if b < 0x80 then 1
    else if 0xC2 <= b < 0xE0 && |s| >= 2 && Continuation(s[1]) then 2
    else if 0xE0 <= b < 0xF0 && |s| >= 3 && Continuation(s[1]) && Continuation(s[2])
      && (b == 0xE0 ==> s[1] >= 0xA0) && (b == 0xED ==> s[1] < 0xA0) then 3
    else if 0xF0 <= b < 0xF5 && |s| >= 4 && Continuation(s[1]) && Continuation(s[2]) && Continuation(s[3])
      && (b == 0xF0 ==> s[1] >= 0x90) && (b == 0xF4 ==> s[1] < 0x90) then 4
    else 0
  }

  predicate ValidUtf8(s: Bytes) {
    s == [] || (RuneLength(s) > 0 && ValidUtf8(s[RuneLength(s)..]))
  }

  // ----- the characters behind it -----

  /** A Unicode scalar value. */
  predicate Scalar(c: nat) {
    c < 0xD800 || 0xE000 <= c < 0x110000
  }

  /** Its bytes (section 3 of RFC 3629). */
  function EncodeRune(c: nat): Bytes
    requires Scalar(c)
  {
    if c < 0x80 then [c]
    else if c < 0x800 then [0xC0 + c / 64, 0x80 + c % 64]
    else if c < 0x10000 then [0xE0 + c / 4096, 0x80 + c / 64 % 64, 0x80 + c % 64]
    else [0xF0 + c / 262144, 0x80 + c / 4096 % 64, 0x80 + c / 64 % 64, 0x80 + c % 64]
  }

  function EncodeRunes(cs: seq<nat>): Bytes
    requires forall i :: 0 <= i < |cs| ==> Scalar(cs[i])
  {
    if cs == [] then [] else EncodeRune(cs[0]) + EncodeRunes(cs[1..])
  }

  /** Every scalar value is recognized, at its length. */
  lemma EncodedIsRune(c: nat, rest: Bytes)
    requires Scalar(c)
    ensures EncodeRune(c) != [] && RuneLength(EncodeRune(c) + rest) == |EncodeRune(c)|
  {
    if 0x800 <= c < 0x10000 {
      assert c / 4096 == 0 ==> c / 64 % 64 >= 32;
      assert c / 4096 == 13 ==> c / 64 % 64 < 32;
    } else if c >= 0x10000 {
      assert c / 262144 == 0 ==> c / 4096 % 64 >= 16;
      assert c / 262144 == 4 ==> c / 4096 % 64 < 16;
    }
  }

  /** Six-bit groups of two, three and four bytes. */
  lemma TwoBytes(a: nat, b: nat)
    requires 2 <= a < 32 && b < 64
    ensures Scalar(64 * a + b) && EncodeRune(64 * a + b) == [0xC0 + a, 0x80 + b]
  {
  }

  lemma ThreeBytes(a: nat, b: nat, c: nat)
    requires a < 16 && b < 64 && c < 64 && (a == 0 ==> b >= 32) && (a == 13 ==> b < 32)
    ensures Scalar(4096 * a + 64 * b + c) && EncodeRune(4096 * a + 64 * b + c) == [0xE0 + a, 0x80 + b, 0x80 + c]
  {
    var n := 4096 * a + 64 * b + c;
    assert n / 64 == 64 * a + b && n % 64 == c && n / 4096 == a;
  }

  lemma FourBytes(a: nat, b: nat, c: nat, d: nat)
    requires a < 5 && b < 64 && c < 64 && d < 64 && (a == 0 ==> b >= 16) && (a == 4 ==> b < 16)
    ensures var n := 262144 * a + 4096 * b + 64 * c + d;
      Scalar(n) && EncodeRune(n) == [0xF0 + a, 0x80 + b, 0x80 + c, 0x80 + d]
  {
    var n := 262144 * a + 4096 * b + 64 * c + d;
    assert n / 64 == 4096 * a + 64 * b + c && n % 64 == d;
    assert n / 4096 == 64 * a + b && n / 262144 == a;
  }

  /** And whatever is recognized is a scalar value's bytes. */
  lemma RuneIsEncoded(s: Bytes) returns (c: nat)
    requires s != [] && RuneLength(s) > 0
    ensures Scalar(c) && EncodeRune(c) == s[..RuneLength(s)]
  {
    var n := RuneLength(s);
    var x: int := s[0];
    if n == 1 {
      c := x;
    } else {
      hide EncodeRune, Scalar;
      var y: int := s[1];
      if n == 2 {
        c := 64 * (x - 0xC0) + (y - 0x80);
        TwoBytes(x - 0xC0, y - 0x80);
      } else {
        var z: int := s[2];
        if n == 3 {
          c := 4096 * (x - 0xE0) + 64 * (y - 0x80) + (z - 0x80);
          ThreeBytes(x - 0xE0, y - 0x80, z - 0x80);
        } else {
          var w: int := s[3];
          c := 262144 * (x - 0xF0) + 4096 * (y - 0x80) + 64 * (z - 0x80) + (w - 0x80);
          FourBytes(x - 0xF0, y - 0x80, z - 0x80, w - 0x80);
        }
      }
    }
  }

  /** Well-formed is exactly what some characters are encoded as. */
  lemma {:induction false} EncodedIsValid(cs: seq<nat>)
    requires forall i :: 0 <= i < |cs| ==> Scalar(cs[i])
    ensures ValidUtf8(EncodeRunes(cs))
  {
    hide RuneLength, EncodeRune;
    if cs != [] {
      EncodedIsValid(cs[1..]);
      EncodedIsRune(cs[0], EncodeRunes(cs[1..]));
      var head, rest := EncodeRune(cs[0]), EncodeRunes(cs[1..]);
      assert (head + rest)[|head|..] == rest;
    }
  }

  lemma {:induction false} ValidIsEncoded(s: Bytes) returns (cs: seq<nat>)
    requires ValidUtf8(s)
    ensures (forall i :: 0 <= i < |cs| ==> Scalar(cs[i])) && EncodeRunes(cs) == s
    decreases |s|
  {
    hide RuneLength, EncodeRune;
    cs := [];
    if s != [] {
      var n := RuneLength(s);
      var c := RuneIsEncoded(s);
      var more := ValidIsEncoded(s[n..]);
      cs := [c] + more;
      assert cs[1..] == more && s == s[..n] + s[n..];
    }
  }
}
