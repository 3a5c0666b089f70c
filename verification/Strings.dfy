/** Splitting at a separator and canonical decimal numbers, over bytes; hexadecimal digits. */
module Strings {
  import opened Text

  // ----- split and join -----

  function Split(s: Bytes, sep: Byte): (parts: seq<Bytes>)
    ensures |parts| >= 1
  {
    if s == [] then [[]]
    else
      var rest := Split(s[1..], sep);
      if s[0] == sep then [[]] + rest else [[s[0]] + rest[0]] + rest[1..]
  }

  function Join(parts: seq<Bytes>, sep: Byte): Bytes
    requires |parts| >= 1
  {
    if |parts| == 1 then parts[0] else parts[0] + [sep] + Join(parts[1..], sep)
  }

  lemma JoinCons(c: Byte, rest: seq<Bytes>, sep: Byte)
    requires |rest| >= 1
    ensures Join([[c] + rest[0]] + rest[1..], sep) == [c] + Join(rest, sep)
  {
    var longer := [[c] + rest[0]] + rest[1..];
    if |rest| == 1 {
      assert longer == [[c] + rest[0]];
    } else {
      assert longer[1..] == rest[1..];
      assert [c] + rest[0] + [sep] + Join(rest[1..], sep) == [c] + (rest[0] + [sep] + Join(rest[1..], sep));
    }
  }

  /** Nothing is lost by splitting. */
  lemma {:induction false} JoinSplit(s: Bytes, sep: Byte)
    ensures Join(Split(s, sep), sep) == s
  {
    hide Join;
    if s == [] {
      JoinOne([], sep);
    } else {
      JoinSplit(s[1..], sep);
      var rest := Split(s[1..], sep);
      if s[0] == sep {
        JoinMore([], rest, sep);
        assert [] + [sep] + s[1..] == s;
      } else {
        JoinCons(s[0], rest, sep);
        assert [s[0]] + s[1..] == s;
      }
    }
  }

  lemma JoinOne(p: Bytes, sep: Byte)
    ensures Join([p], sep) == p
  {
  }

  lemma JoinMore(p: Bytes, rest: seq<Bytes>, sep: Byte)
    requires |rest| >= 1
    ensures Join([p] + rest, sep) == p + [sep] + Join(rest, sep)
  {
    assert ([p] + rest)[1..] == rest;
  }

  lemma {:induction false} SplitOne(p: Bytes, sep: Byte)
    requires sep !in p
    ensures Split(p, sep) == [p]
  {
    if p != [] {
      SplitOne(p[1..], sep);
      assert p == [p[0]] + p[1..];
    }
  }

  /** A part without the separator is split off whole. */
  lemma {:induction false} SplitMore(p: Bytes, s: Bytes, sep: Byte)
    requires sep !in p
    ensures Split(p + [sep] + s, sep) == [p] + Split(s, sep)
  {
    var t := p + [sep] + s;
    if p == [] {
      assert t[1..] == s;
    } else {
      SplitMore(p[1..], s, sep);
      assert t[1..] == p[1..] + [sep] + s;
      assert p == [p[0]] + p[1..];
      assert ([p[1..]] + Split(s, sep))[1..] == Split(s, sep);
    }
  }

  /** Splitting undoes joining when no part holds the separator. */
  lemma {:induction false} SplitJoin(parts: seq<Bytes>, sep: Byte)
    requires |parts| >= 1 && forall i :: 0 <= i < |parts| ==> sep !in parts[i]
    ensures Split(Join(parts, sep), sep) == parts
  {
    hide Split;
    if |parts| == 1 {
      SplitOne(parts[0], sep);
    } else {
      SplitJoin(parts[1..], sep);
      SplitMore(parts[0], Join(parts[1..], sep), sep);
      assert parts == [parts[0]] + parts[1..];
    }
  }

  // ----- decimals -----

  predicate IsDigit(c: Byte) {
    48 <= c <= 57
  }

  predicate AllDigits(s: Bytes) {
    forall i :: 0 <= i < |s| ==> IsDigit(s[i])
  }

  function Decimal(n: nat): (s: Bytes)
    ensures |s| >= 1
  {
    if n < 10 then [48 + n] else Decimal(n / 10) + [48 + n % 10]
  }

  function DecimalValue(s: Bytes): int
    requires AllDigits(s)
  {
    if s == [] then 0 else 10 * DecimalValue(s[..|s| - 1]) + (s[|s| - 1] - 48)
  }

  /** Digits without a superfluous leading zero. */
  predicate Canonical(s: Bytes) {
    s != [] && AllDigits(s) && (|s| > 1 ==> s[0] != 48)
  }

  lemma {:induction false} DecimalRoundTrip(n: nat)
    ensures Canonical(Decimal(n)) && DecimalValue(Decimal(n)) == n
    ensures n > 0 ==> Decimal(n)[0] != 48
  {
    if n >= 10 {
      DecimalRoundTrip(n / 10);
      assert Decimal(n)[..|Decimal(n)| - 1] == Decimal(n / 10);
    } else {
      assert DecimalValue([]) == 0;
      assert Decimal(n)[..0] == [];
    }
  }

  /** A canonical numeral is the only one of its value. */
  lemma {:induction false} CanonicalDecimal(s: Bytes)
    requires Canonical(s)
    ensures DecimalValue(s) >= 0 && Decimal(DecimalValue(s)) == s
    ensures s[0] != 48 ==> DecimalValue(s) > 0
    decreases |s|
  {
    var front, last := s[..|s| - 1], s[|s| - 1];
    if |s| == 1 {
      assert front == [];
      assert s == [last];
    } else {
      assert front[0] == s[0];
      CanonicalDecimal(front);
      var n := DecimalValue(s);
      assert n / 10 == DecimalValue(front) && n % 10 == last - 48;
      assert s == front + [last];
    }
  }

  lemma {:induction false} DecimalLength(n: nat, digits: nat, bound: nat)
    requires digits >= 1 && n < bound && bound == Power10(digits)
    ensures |Decimal(n)| <= digits
  {
    if n >= 10 {
      DecimalLength(n / 10, digits - 1, Power10(digits - 1));
    }
  }

  function Power10(k: nat): (p: nat)
    ensures p >= 1
  {
    if k == 0 then 1 else 10 * Power10(k - 1)
  }

  /** ASCII codes as characters. */
  function AsText(b: Bytes): (t: string)
    ensures |t| == |b|
  {
    seq(|b|, i requires 0 <= i < |b| => b[i] as char)
  }

  function Number(n: nat): string {
    AsText(Decimal(n))
  }

  // ----- hexadecimal digits -----

  function HexDigit(d: nat): (c: Byte)
    requires d < 16
    ensures c as char == "0123456789abcdef"[d]
  {
    if d < 10 then 48 + d else 87 + d
  }

  function HexValue(c: Byte): nat
    ensures HexValue(c) < 16
  {
    if 48 <= c <= 57 then c - 48 else if 97 <= c <= 102 then c - 87 else 0
  }

  lemma HexDigitValue(d: nat)
    requires d < 16
    ensures HexValue(HexDigit(d)) == d && HexDigit(d) != 37
  {
  }
}
