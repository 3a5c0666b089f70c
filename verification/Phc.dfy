/** The password verifier string of the PHC format, as printed and as parsed. */
module Phc {
  import opened Wrappers
  import opened Text
  import opened Strings
  import Base64

  const DOLLAR: Byte := 36
  const COMMA: Byte := 44
  const ALGORITHM: Bytes := [97, 114, 103, 111, 110, 50, 105, 100]  // argon2id
  const VERSION: Bytes := [118, 61, 49, 57]  // v=19
  const MEMORY: Bytes := [109, 61]  // m=
  const ITERATIONS: Bytes := [116, 61]  // t=
  const LANES: Bytes := [112, 61]  // p=
  const MIN_BYTES: nat := 68
  const MAX_BYTES: nat := 128
  const MAX_UINT32: nat := 0xFFFF_FFFF

  datatype Verifier = Verifier(memory: nat, iterations: nat, lanes: nat, salt: Bytes, hash: Bytes)

  predicate InRange(m: nat, t: nat, p: nat) {
    m <= 262144 && 0 < t <= 10 && 0 < p <= 4 && m >= 8 * p
  }

  /** What the parser promises of a verifier it accepts. */
  predicate Sound(v: Verifier) {
    InRange(v.memory, v.iterations, v.lanes) && |v.salt| == 16 && |v.hash| == 32
  }

  // ----- printing -----

  function Parameters(m: nat, t: nat, p: nat): Bytes {
    MEMORY + Decimal(m) + [COMMA] + ITERATIONS + Decimal(t) + [COMMA] + LANES + Decimal(p)
  }

  function Format(v: Verifier): Bytes {
    [DOLLAR] + ALGORITHM + [DOLLAR] + VERSION + [DOLLAR] + Parameters(v.memory, v.iterations, v.lanes)
    + [DOLLAR] + Base64.EncodeRaw(v.salt) + [DOLLAR] + Base64.EncodeRaw(v.hash)
  }

  // ----- parsing -----

  predicate HasPrefix(s: Bytes, prefix: Bytes) {
    prefix <= s
  }

  /** One canonical 32-bit parameter. */
  function ParseParameter(field: Bytes, prefix: Bytes): Option<nat> {
    if !HasPrefix(field, prefix) then None
    else
      var number := field[|prefix|..];
      if number == [] || (|number| > 1 && number[0] == 48) || !AllDigits(number) then None
      else if DecimalValue(number) < 0 || DecimalValue(number) > MAX_UINT32 then None
      else Some(DecimalValue(number))
  }

  function Prefix(i: nat): Bytes {
    if i == 0 then MEMORY else if i == 1 then ITERATIONS else LANES
  }

  function ParseParameters(s: Bytes): Option<seq<nat>> {
    var fields := Split(s, COMMA);
    if |fields| != 3 then None
    else
      match (ParseParameter(fields[0], MEMORY), ParseParameter(fields[1], ITERATIONS), ParseParameter(fields[2], LANES))
      case (Some(m), Some(t), Some(p)) => Some([m, t, p])
      case _ => None
  }

  /** The cheap checks of the string as a whole. */
  predicate RightShape(s: Bytes) {
    MIN_BYTES <= |s| <= MAX_BYTES && s[|s| - 44] == DOLLAR && s[|s| - 67] == DOLLAR
  }

  predicate RightParts(parts: seq<Bytes>) {
    && |parts| == 6 && parts[0] == [] && parts[1] == ALGORITHM && parts[2] == VERSION
    && |parts[3]| <= 32 && |parts[4]| == 22 && |parts[5]| == 43
  }

  function Parse(s: Bytes): Option<Verifier> {
    if !RightShape(s) then None
    else
      var parts := Split(s, DOLLAR);
      if !RightParts(parts) then None
      else
        match ParseParameters(parts[3])
        case None => None
        case Some(x) =>
          if |x| != 3 || !InRange(x[0], x[1], x[2]) then None
          else
            match (Base64.DecodeCanonical(parts[4]), Base64.DecodeCanonical(parts[5]))
            case (Some(salt), Some(hash)) =>
              if |salt| == 16 && |hash| == 32 then Some(Verifier(x[0], x[1], x[2], salt, hash)) else None
            case _ => None
  }

  /** The loop over the three parameters. */
  method ParseValues(s: Bytes) returns (r: Option<seq<nat>>)
    ensures r == ParseParameters(s)
  {
    hide ParseParameter;
    var fields := Split(s, COMMA);
    if |fields| != 3 {
      return None;
    }
    var values: seq<nat> := [];
    var i := 0;
    while i < 3
      invariant 0 <= i <= 3 && |values| == i
      invariant forall j :: 0 <= j < i ==> ParseParameter(fields[j], Prefix(j)) == Some(values[j])
    {
      match ParseParameter(fields[i], Prefix(i)) {
        case None => return None;
        case Some(v) => values := values + [v];
      }
      i := i + 1;
    }
    assert values == [values[0], values[1], values[2]];
    r := Some(values);
  }

  // ----- the bijection -----

  lemma ParameterExactly(field: Bytes, prefix: Bytes, n: nat)
    requires n <= MAX_UINT32
    ensures ParseParameter(field, prefix) == Some(n) <==> field == prefix + Decimal(n)
  {
    hide Decimal, DecimalValue;
    DecimalRoundTrip(n);
    var printed := prefix + Decimal(n);
    assert printed[|prefix|..] == Decimal(n);
    if ParseParameter(field, prefix) == Some(n) {
      CanonicalDecimal(field[|prefix|..]);
      assert field == prefix + field[|prefix|..];
    }
  }

  function ParameterParts(m: nat, t: nat, p: nat): seq<Bytes> {
    [MEMORY + Decimal(m), ITERATIONS + Decimal(t), LANES + Decimal(p)]
  }

  lemma ParametersJoin(m: nat, t: nat, p: nat)
    ensures Join(ParameterParts(m, t, p), COMMA) == Parameters(m, t, p)
  {
    hide Decimal;
    var parts := ParameterParts(m, t, p);
    assert parts[1..][1..] == [parts[2]];
    assert Join(parts[1..], COMMA) == parts[1] + [COMMA] + parts[2];
  }

  lemma DigitsOnly(n: nat, c: Byte)
    requires c == COMMA || c == DOLLAR
    ensures c !in Decimal(n)
  {
    DecimalRoundTrip(n);
  }

  lemma ParametersSplit(m: nat, t: nat, p: nat)
    ensures Split(Parameters(m, t, p), COMMA) == ParameterParts(m, t, p)
  {
    hide Decimal;
    DigitsOnly(m, COMMA);
    DigitsOnly(t, COMMA);
    DigitsOnly(p, COMMA);
    ParametersJoin(m, t, p);
    SplitJoin(ParameterParts(m, t, p), COMMA);
  }

  lemma ParametersExactly(s: Bytes, m: nat, t: nat, p: nat)
    requires InRange(m, t, p)
    ensures ParseParameters(s) == Some([m, t, p]) <==> s == Parameters(m, t, p)
  {
    hide Decimal, Split, ParseParameter, Parameters, Join;
    var fields := Split(s, COMMA);
    ParametersSplit(m, t, p);
    JoinSplit(s, COMMA);
    ParametersJoin(m, t, p);
    if |fields| == 3 {
      assert fields == [fields[0], fields[1], fields[2]];
      ParameterExactly(fields[0], MEMORY, m);
      ParameterExactly(fields[1], ITERATIONS, t);
      ParameterExactly(fields[2], LANES, p);
      assert [m, t, p][0] == m && [m, t, p][1] == t && [m, t, p][2] == p;
    }
  }

  function Parts(v: Verifier): seq<Bytes> {
    [[], ALGORITHM, VERSION, Parameters(v.memory, v.iterations, v.lanes), Base64.EncodeRaw(v.salt), Base64.EncodeRaw(v.hash)]
  }

  lemma JoinThree(x: Bytes, y: Bytes, z: Bytes, sep: Byte)
    ensures Join([x, y, z], sep) == x + [sep] + y + [sep] + z
  {
    hide Join;
    JoinOne(z, sep);
    JoinMore(y, [z], sep);
    JoinMore(x, [y] + [z], sep);
    assert [x] + ([y] + [z]) == [x, y, z];
  }

  lemma JoinSix(a: Bytes, b: Bytes, c: Bytes, x: Bytes, y: Bytes, z: Bytes, sep: Byte)
    ensures Join([a, b, c, x, y, z], sep) == a + [sep] + b + [sep] + c + [sep] + Join([x, y, z], sep)
  {
    hide Join;
    JoinMore(c, [x, y, z], sep);
    JoinMore(b, [c] + [x, y, z], sep);
    JoinMore(a, [b] + ([c] + [x, y, z]), sep);
    assert [a] + ([b] + ([c] + [x, y, z])) == [a, b, c, x, y, z];
  }

  lemma FormatJoin(v: Verifier)
    ensures Join(Parts(v), DOLLAR) == Format(v)
  {
    hide Join, Parameters;
    var x, y, z := Parameters(v.memory, v.iterations, v.lanes), Base64.EncodeRaw(v.salt), Base64.EncodeRaw(v.hash);
    JoinSix([], ALGORITHM, VERSION, x, y, z, DOLLAR);
    JoinThree(x, y, z, DOLLAR);
    Regroup([DOLLAR] + ALGORITHM + [DOLLAR] + VERSION + [DOLLAR], x, y, z);
    assert [] + [DOLLAR] == [DOLLAR];
  }

  lemma Regroup(head: Bytes, x: Bytes, y: Bytes, z: Bytes)
    ensures head + (x + [DOLLAR] + y + [DOLLAR] + z) == head + x + [DOLLAR] + y + [DOLLAR] + z
  {
  }

  lemma Tail(head: Bytes, y: Bytes, z: Bytes)
    requires |y| == 22 && |z| == 43
    ensures var f := head + [DOLLAR] + y + [DOLLAR] + z;
      |f| == |head| + 67 && f[|f| - 44] == DOLLAR && f[|f| - 67] == DOLLAR
  {
  }

  lemma NoDollar(v: Verifier)
    ensures forall i :: 0 <= i < 6 ==> DOLLAR !in Parts(v)[i]
  {
    hide Decimal;
    DigitsOnly(v.memory, DOLLAR);
    DigitsOnly(v.iterations, DOLLAR);
    DigitsOnly(v.lanes, DOLLAR);
    assert DOLLAR !in Parameters(v.memory, v.iterations, v.lanes);
    Base64.QuadsRoundTrip(v.salt);
    Base64.QuadsRoundTrip(v.hash);
  }

  lemma FormatSplit(v: Verifier)
    ensures Split(Format(v), DOLLAR) == Parts(v)
  {
    hide Parameters, Format, Join, Split;
    NoDollar(v);
    FormatJoin(v);
    SplitJoin(Parts(v), DOLLAR);
  }

  lemma ParametersLength(m: nat, t: nat, p: nat)
    requires InRange(m, t, p)
    ensures 11 <= |Parameters(m, t, p)| <= 17
  {
    hide Decimal;
    assert Power10(3) == 1000;
    DecimalLength(m, 6, 1000000);
    DecimalLength(t, 2, 100);
    DecimalLength(p, 1, 10);
  }

  lemma FormatShape(v: Verifier)
    requires Sound(v)
    ensures RightShape(Format(v)) && RightParts(Parts(v))
  {
    hide Parameters;
    ParametersLength(v.memory, v.iterations, v.lanes);
    Base64.QuadsRoundTrip(v.salt);
    Base64.QuadsRoundTrip(v.hash);
    var head := [DOLLAR] + ALGORITHM + [DOLLAR] + VERSION + [DOLLAR] + Parameters(v.memory, v.iterations, v.lanes);
    Tail(head, Base64.EncodeRaw(v.salt), Base64.EncodeRaw(v.hash));
    assert |head| == 15 + |Parameters(v.memory, v.iterations, v.lanes)|;
  }

  /** Parsing accepts exactly the strings printed for verifiers in range with a 16-byte salt and a
      32-byte hash, and each with the verifier it was printed for. */
  lemma PhcBijection(s: Bytes, v: Verifier)
    ensures Parse(s) == Some(v) <==> Sound(v) && s == Format(v)
  {
    if Sound(v) && s == Format(v) {
      PrintedIsParsed(v);
    }
    if Parse(s) == Some(v) {
      ParsedIsPrinted(s, v);
    }
  }

  lemma PrintedIsParsed(v: Verifier)
    requires Sound(v)
    ensures Parse(Format(v)) == Some(v)
  {
    hide Parameters, Format, Split, ParseParameters, RightShape, RightParts;
    FormatSplit(v);
    FormatShape(v);
    ParametersExactly(Parameters(v.memory, v.iterations, v.lanes), v.memory, v.iterations, v.lanes);
    Base64.CanonicalExactly(Base64.EncodeRaw(v.salt), v.salt);
    Base64.CanonicalExactly(Base64.EncodeRaw(v.hash), v.hash);
  }

  lemma ParsedIsPrinted(s: Bytes, v: Verifier)
    requires Parse(s) == Some(v)
    ensures Sound(v) && s == Format(v)
  {
    hide Parameters, Format, Split, ParseParameters, RightShape, Join;
    var parts := Split(s, DOLLAR);
    var x := ParseParameters(parts[3]).value;
    assert x == [x[0], x[1], x[2]];
    PartsDecide(parts, v);
    JoinSplit(s, DOLLAR);
    FormatJoin(v);
  }

  lemma PartsDecide(parts: seq<Bytes>, v: Verifier)
    requires RightParts(parts) && InRange(v.memory, v.iterations, v.lanes)
    requires ParseParameters(parts[3]) == Some([v.memory, v.iterations, v.lanes])
    requires Base64.DecodeCanonical(parts[4]) == Some(v.salt) && Base64.DecodeCanonical(parts[5]) == Some(v.hash)
    ensures parts == Parts(v)
  {
    hide Parameters, ParseParameters, Base64.EncodeRaw, Base64.DecodeCanonical;
    ParametersExactly(parts[3], v.memory, v.iterations, v.lanes);
    Base64.CanonicalExactly(parts[4], v.salt);
    Base64.CanonicalExactly(parts[5], v.hash);
    assert parts == [parts[0], parts[1], parts[2], parts[3], parts[4], parts[5]];
  }

  /** Hence no verifier has two strings and no string two verifiers. */
  lemma PrintedOnce(v: Verifier, w: Verifier)
    requires Sound(v) && Sound(w)
    ensures Format(v) == Format(w) ==> v == w
  {
    hide Format, Parse;
    PhcBijection(Format(v), v);
    PhcBijection(Format(w), w);
  }

  /** What is accepted is within the cost limits, and what is within them is accepted. */
  lemma AcceptedWithinLimits(v: Verifier)
    ensures Parse(Format(v)) == Some(v) <==>
      && v.memory <= 262144 && v.memory >= 8 * v.lanes && 1 <= v.iterations <= 10 && 1 <= v.lanes <= 4
      && |v.salt| == 16 && |v.hash| == 32
  {
    hide Parse, Format;
    PhcBijection(Format(v), v);
  }

  // ----- as text -----

  lemma TextAppend(a: Bytes, b: Bytes)
    ensures AsText(a + b) == AsText(a) + AsText(b)
  {
  }

  lemma FixedTexts()
    ensures AsText([DOLLAR]) == "$" && AsText([COMMA]) == "," && AsText(ALGORITHM) == "argon2id" && AsText(VERSION) == "v=19"
    ensures AsText(MEMORY) == "m=" && AsText(ITERATIONS) == "t=" && AsText(LANES) == "p="
  {
  }

  lemma ParametersText(m: nat, t: nat, p: nat)
    ensures AsText(Parameters(m, t, p)) == "m=" + Number(m) + "," + "t=" + Number(t) + "," + "p=" + Number(p)
  {
    hide Decimal, AsText, MEMORY, ITERATIONS, LANES;
    FixedTexts();
    var a := MEMORY + Decimal(m);
    var b := a + [COMMA] + ITERATIONS + Decimal(t);
    TextAppend(MEMORY, Decimal(m));
    TextAppend(a, [COMMA]);
    TextAppend(a + [COMMA], ITERATIONS);
    TextAppend(a + [COMMA] + ITERATIONS, Decimal(t));
    TextAppend(b, [COMMA]);
    TextAppend(b + [COMMA], LANES);
    TextAppend(b + [COMMA] + LANES, Decimal(p));
  }

  /** The printed verifier, as it is read. */
  lemma FormatText(v: Verifier)
    ensures AsText(Format(v)) == "$" + "argon2id" + "$" + "v=19" + "$" + "m=" + Number(v.memory) + "," + "t=" + Number(v.iterations)
      + "," + "p=" + Number(v.lanes) + "$" + AsText(Base64.EncodeRaw(v.salt)) + "$" + AsText(Base64.EncodeRaw(v.hash))
  {
    hide Number, AsText, Parameters, Base64.EncodeRaw, ALGORITHM, VERSION;
    FixedTexts();
    var parameters, salt, hash := Parameters(v.memory, v.iterations, v.lanes), Base64.EncodeRaw(v.salt), Base64.EncodeRaw(v.hash);
    var a := [DOLLAR] + ALGORITHM + [DOLLAR] + VERSION + [DOLLAR];
    TextAppend([DOLLAR], ALGORITHM);
    TextAppend([DOLLAR] + ALGORITHM, [DOLLAR]);
    TextAppend([DOLLAR] + ALGORITHM + [DOLLAR], VERSION);
    TextAppend([DOLLAR] + ALGORITHM + [DOLLAR] + VERSION, [DOLLAR]);
    TextAppend(a, parameters);
    ParametersText(v.memory, v.iterations, v.lanes);
    TextAppend(a + parameters, [DOLLAR]);
    TextAppend(a + parameters + [DOLLAR], salt);
    TextAppend(a + parameters + [DOLLAR] + salt, [DOLLAR]);
    TextAppend(a + parameters + [DOLLAR] + salt + [DOLLAR], hash);
  }
}
