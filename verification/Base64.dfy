/** Standard base64 (section 4 of RFC 4648) over ASCII codes, padded and unpadded. */
module Base64 {
  import opened Wrappers
  import opened Text

  const PAD: Byte := 61  // '='

  /** The standard alphabet. */
  function Symbol(v: nat): (c: Byte)
    requires v < 64
  {
    if v < 26 then 65 + v
    else if v < 52 then 97 + (v - 26)
    else if v < 62 then 48 + (v - 52)
    else if v == 62 then 43
    else 47
  }

  lemma UpperAlphabet(v: nat)
    requires v < 26
    ensures Symbol(v) as char == "ABCDEFGHIJKLMNOPQRSTUVWXYZ"[v]
  {
  }

  lemma LowerAlphabet(v: nat)
    requires v < 26
    ensures Symbol(26 + v) as char == "abcdefghijklmnopqrstuvwxyz"[v]
  {
  }

  lemma DigitAlphabet(v: nat)
    requires v < 12
    ensures Symbol(52 + v) as char == "0123456789+/"[v]
  {
  }

  /** Three bytes as four symbols; the last group may be short. */
  function EncodeRaw(s: Bytes): Bytes {
    if |s| == 0 then []
    else if |s| == 1 then [Symbol(s[0] / 4), Symbol(s[0] % 4 * 16)]
    else if |s| == 2 then [Symbol(s[0] / 4), Symbol(s[0] % 4 * 16 + s[1] / 16), Symbol(s[1] % 16 * 4)]
    else
      [Symbol(s[0] / 4), Symbol(s[0] % 4 * 16 + s[1] / 16), Symbol(s[1] % 16 * 4 + s[2] / 64), Symbol(s[2] % 64)]
      + EncodeRaw(s[3..])
  }

  function Encode(s: Bytes): Bytes {
    EncodeRaw(s) + (if |s| % 3 == 0 then [] else if |s| % 3 == 1 then [PAD, PAD] else [PAD])
  }

  // ----- decoding -----

  function SymbolValue(c: Byte): Option<nat> {
    if 65 <= c <= 90 then Some(c - 65)
    else if 97 <= c <= 122 then Some(c - 97 + 26)
    else if 48 <= c <= 57 then Some(c - 48 + 52)
    else if c == 43 then Some(62)
    else if c == 47 then Some(63)
    else None
  }

  predicate InAlphabet(s: Bytes) {
    forall i :: 0 <= i < |s| ==> SymbolValue(s[i]).Some?
  }

  function V(c: Byte): (v: nat)
    ensures v < 64
  {
    match SymbolValue(c)
    case Some(v) => v
    case None => 0
  }

  /** Groups of four symbols; a last group of two or three is short, and its surplus bits are
      ignored. */
  function DecodeQuads(s: Bytes): Option<Bytes> {
    if |s| == 0 then Some([])
    else if |s| == 1 then None
    else if |s| == 2 then Some([V(s[0]) * 4 + V(s[1]) / 16])
    else if |s| == 3 then Some([V(s[0]) * 4 + V(s[1]) / 16, V(s[1]) % 16 * 16 + V(s[2]) / 4])
    else
      match DecodeQuads(s[4..])
      case None => None
      case Some(rest) =>
        Some([V(s[0]) * 4 + V(s[1]) / 16, V(s[1]) % 16 * 16 + V(s[2]) / 4, V(s[2]) % 4 * 64 + V(s[3])] + rest)
  }

  function StripNewlines(s: Bytes): Bytes {
    if s == [] then []
    else (if s[0] == 10 || s[0] == 13 then [] else [s[0]]) + StripNewlines(s[1..])
  }

  /** The library's lenient unpadded decoder: line breaks are skipped, surplus bits ignored. */
  function DecodeRaw(s: Bytes): Option<Bytes> {
    var t := StripNewlines(s);
    if InAlphabet(t) then DecodeQuads(t) else None
  }

  /** Accepts only what the encoder prints. */
  function DecodeCanonical(s: Bytes): Option<Bytes> {
    if s == [] || PAD in s then None
    else
      match DecodeRaw(s)
      case None => None
      case Some(d) => if EncodeRaw(d) == s then Some(d) else None
  }

  lemma SymbolRoundTrip(v: nat)
    requires v < 64
    ensures SymbolValue(Symbol(v)) == Some(v) && V(Symbol(v)) == v
    ensures Symbol(v) !in {10, 13, 36, 44, PAD}
  {
  }

  /** Three bytes, their four six-bit values, and back. */
  lemma Regroup(a: Byte, b: Byte, c: Byte)
    ensures a / 4 < 64 && a % 4 * 16 + b / 16 < 64 && b % 16 * 4 + c / 64 < 64 && c % 64 < 64
    ensures (a / 4) * 4 + (a % 4 * 16 + b / 16) / 16 == a
    ensures (a % 4 * 16 + b / 16) % 16 * 16 + (b % 16 * 4 + c / 64) / 4 == b
    ensures (b % 16 * 4 + c / 64) % 4 * 64 + c % 64 == c
  {
    assert (a % 4 * 16 + b / 16) / 16 == a % 4;
    assert (a % 4 * 16 + b / 16) % 16 == b / 16;
    assert (b % 16 * 4 + c / 64) / 4 == b % 16;
    assert (b % 16 * 4 + c / 64) % 4 == c / 64;
  }

  predicate Printed(s: Bytes) {
    forall i :: 0 <= i < |s| ==> SymbolValue(s[i]).Some? && s[i] !in {10, 13, 36, 44, PAD}
  }

  lemma Group(a: Byte, b: Byte, c: Byte)
    ensures a / 4 < 64 && a % 4 * 16 + b / 16 < 64 && b % 16 * 4 + c / 64 < 64
    ensures var w, x, y, z := Symbol(a / 4), Symbol(a % 4 * 16 + b / 16), Symbol(b % 16 * 4 + c / 64), Symbol(c % 64);
      && Printed([w, x, y, z]) && V(w) * 4 + V(x) / 16 == a
      && V(x) % 16 * 16 + V(y) / 4 == b && V(y) % 4 * 64 + V(z) == c
  {
    hide Symbol, SymbolValue, V;
    Regroup(a, b, c);
    SymbolRoundTrip(a / 4);
    SymbolRoundTrip(a % 4 * 16 + b / 16);
    SymbolRoundTrip(b % 16 * 4 + c / 64);
    SymbolRoundTrip(c % 64);
  }

  /** Three bytes and their four symbols are the same 24-bit number, most significant first. */
  lemma SameNumber(a: Byte, b: Byte, c: Byte)
    ensures var e := EncodeRaw([a, b, c]);
      |e| == 4 && V(e[0]) * 262144 + V(e[1]) * 4096 + V(e[2]) * 64 + V(e[3]) == a * 65536 + b * 256 + c
  {
    hide Symbol, SymbolValue, V;
    Regroup(a, b, c);
    SymbolRoundTrip(a / 4);
    SymbolRoundTrip(a % 4 * 16 + b / 16);
    SymbolRoundTrip(b % 16 * 4 + c / 64);
    SymbolRoundTrip(c % 64);
    assert [a, b, c][3..] == [];
    assert EncodeRaw([a, b, c]) == [Symbol(a / 4), Symbol(a % 4 * 16 + b / 16), Symbol(b % 16 * 4 + c / 64), Symbol(c % 64)];
  }

  lemma OneByte(a: Byte)
    ensures DecodeQuads(EncodeRaw([a])) == Some([a]) && Printed(EncodeRaw([a])) && |EncodeRaw([a])| == 2
  {
    hide Symbol, SymbolValue, V, Printed;
    Group(a, 0, 0);
    assert a % 4 * 16 + 0 / 16 == a % 4 * 16;
    var q := [Symbol(a / 4), Symbol(a % 4 * 16), Symbol(0 % 16 * 4 + 0 / 64), Symbol(0 % 64)];
    PrintedPrefix(q, 2);
    assert q[..2] == EncodeRaw([a]);
  }

  lemma TwoBytes(a: Byte, b: Byte)
    ensures DecodeQuads(EncodeRaw([a, b])) == Some([a, b]) && Printed(EncodeRaw([a, b])) && |EncodeRaw([a, b])| == 3
  {
    hide Symbol, SymbolValue, V, Printed;
    Group(a, b, 0);
    assert b % 16 * 4 + 0 / 64 == b % 16 * 4;
    var q := [Symbol(a / 4), Symbol(a % 4 * 16 + b / 16), Symbol(b % 16 * 4), Symbol(0 % 64)];
    PrintedPrefix(q, 3);
    assert q[..3] == EncodeRaw([a, b]);
  }

  lemma PrintedPrefix(s: Bytes, n: nat)
    requires Printed(s) && n <= |s|
    ensures Printed(s[..n])
  {
    hide SymbolValue;
  }

  lemma {:induction false} QuadsRoundTrip(s: Bytes)
    ensures DecodeQuads(EncodeRaw(s)) == Some(s) && Printed(EncodeRaw(s))
    ensures |EncodeRaw(s)| == (4 * |s| + 2) / 3
  {
    hide Symbol, SymbolValue, V, Printed;
    if |s| == 1 {
      OneByte(s[0]);
      assert s == [s[0]];
    } else if |s| == 2 {
      TwoBytes(s[0], s[1]);
      assert s == [s[0], s[1]];
    } else if |s| > 2 {
      hide DecodeQuads, EncodeRaw;
      QuadsRoundTrip(s[3..]);
      MoreBytes(s[0], s[1], s[2], s[3..]);
      assert s == [s[0], s[1], s[2]] + s[3..];
    } else {
      PrintedEmpty();
    }
  }

  lemma MoreBytes(a: Byte, b: Byte, c: Byte, rest: Bytes)
    requires DecodeQuads(EncodeRaw(rest)) == Some(rest) && Printed(EncodeRaw(rest))
    ensures var s := [a, b, c] + rest;
      DecodeQuads(EncodeRaw(s)) == Some(s) && Printed(EncodeRaw(s)) && |EncodeRaw(s)| == 4 + |EncodeRaw(rest)|
  {
    hide Symbol, SymbolValue, V, Printed, DecodeQuads;
    Group(a, b, c);
    var q := [Symbol(a / 4), Symbol(a % 4 * 16 + b / 16), Symbol(b % 16 * 4 + c / 64), Symbol(c % 64)];
    PrintedAppend(q, EncodeRaw(rest));
    DecodeStep(q, EncodeRaw(rest));
    assert ([a, b, c] + rest)[3..] == rest;
  }

  lemma DecodeStep(q: Bytes, rest: Bytes)
    requires |q| == 4 && DecodeQuads(rest).Some?
    ensures DecodeQuads(q + rest) == Some(
      [V(q[0]) * 4 + V(q[1]) / 16, V(q[1]) % 16 * 16 + V(q[2]) / 4, V(q[2]) % 4 * 64 + V(q[3])] + DecodeQuads(rest).value)
  {
    hide V;
    assert (q + rest)[4..] == rest;
  }

  lemma PrintedAppend(s: Bytes, t: Bytes)
    requires Printed(s) && Printed(t)
    ensures Printed(s + t)
  {
    hide SymbolValue;
  }

  lemma PrintedEmpty()
    ensures Printed([])
  {
  }

  lemma {:induction false} NothingToStrip(s: Bytes)
    requires Printed(s)
    ensures StripNewlines(s) == s
  {
    hide SymbolValue;
    if s != [] {
      NothingToStrip(s[1..]);
      assert s == [s[0]] + s[1..];
    }
  }

  /** The canonical decoder accepts exactly the encodings of nonempty byte strings, and inverts them. */
  lemma CanonicalExactly(s: Bytes, d: Bytes)
    ensures DecodeCanonical(s) == Some(d) <==> d != [] && EncodeRaw(d) == s
  {
    hide EncodeRaw, DecodeQuads, SymbolValue;
    QuadsRoundTrip(d);
    NothingToStrip(EncodeRaw(d));
    QuadsRoundTrip([]);
  }
}
