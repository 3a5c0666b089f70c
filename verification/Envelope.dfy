/** The binary form of a secret envelope and of its authenticated data: length-prefixed fields. */
module Envelope {
  import opened Wrappers
  import opened Text
  import opened Utf8

  const SUITE: Bytes := [65, 69, 83, 45, 50, 53, 54, 45, 71, 67, 77, 45, 82, 65, 78, 68, 79, 77, 78, 79, 78, 67, 69, 45, 118, 49]  // AES-256-GCM-RANDOMNONCE-v1
  const AAD_VERSION: Bytes := [118, 49]  // v1
  const VALUE_DOMAIN: Bytes := [97, 117, 116, 111, 100, 101, 112, 108, 111, 121, 58, 115, 101, 99, 114, 101, 116, 45, 118, 97, 108, 117, 101, 58, 118, 49]  // autodeploy:secret-value:v1
  const WRAP_DOMAIN: Bytes := [97, 117, 116, 111, 100, 101, 112, 108, 111, 121, 58, 115, 101, 99, 114, 101, 116, 45, 100, 101, 107, 45, 119, 114, 97, 112, 58, 118, 49]  // autodeploy:secret-dek-wrap:v1
  const BUILD: Bytes := [98, 117, 105, 108, 100]
  const RUNTIME: Bytes := [114, 117, 110, 116, 105, 109, 101]
  const PROVIDER: Bytes := [112, 114, 111, 118, 105, 100, 101, 114]

  const MAX_PLAINTEXT: nat := 65536
  const MAX_SERIALIZED: nat := 4 + 26 + 4 + 2 + 4 + 64 + 4 + MAX_PLAINTEXT + 28 + 4 + 60
  const UINT32: nat := 0x1_0000_0000

  // ----- length-prefixed fields -----

  /** The low `k` bytes of a number, most significant first. */
  function BigEndian(n: nat, k: nat): (b: Bytes)
    ensures |b| == k
  {
    if k == 0 then [] else BigEndian(n / 256, k - 1) + [n % 256]
  }

  function Number(b: Bytes): nat {
    if b == [] then 0 else 256 * Number(b[..|b| - 1]) + b[|b| - 1]
  }

  function Power256(k: nat): nat {
    if k == 0 then 1 else 256 * Power256(k - 1)
  }

  lemma {:induction false} NumberOfBytes(n: nat, k: nat)
    requires n < Power256(k)
    ensures Number(BigEndian(n, k)) == n
  {
    if k > 0 {
      NumberOfBytes(n / 256, k - 1);
      assert BigEndian(n, k)[..k - 1] == BigEndian(n / 256, k - 1);
    }
  }

  lemma {:induction false} BytesOfNumber(b: Bytes)
    ensures Number(b) < Power256(|b|) && BigEndian(Number(b), |b|) == b
  {
    if b != [] {
      BytesOfNumber(b[..|b| - 1]);
      assert Number(b) / 256 == Number(b[..|b| - 1]) && Number(b) % 256 == b[|b| - 1];
      assert b == b[..|b| - 1] + [b[|b| - 1]];
    }
  }

  /** A length prefix: the length truncated to 32 bits. */
  function Size(n: nat): (b: Bytes)
    ensures |b| == 4
  {
    BigEndian(n, 4)
  }

  function Uint32(b: Bytes): nat {
    Number(b)
  }

  lemma FourBytes()
    ensures Power256(4) == UINT32
  {
    assert Power256(2) == 65536;
  }

  lemma SizeRoundTrip(n: nat)
    requires n < UINT32
    ensures Uint32(Size(n)) == n
  {
    FourBytes();
    NumberOfBytes(n, 4);
  }

  lemma SizeOfUint32(b: Bytes)
    requires |b| == 4
    ensures Uint32(b) < UINT32 && Size(Uint32(b)) == b
  {
    FourBytes();
    BytesOfNumber(b);
  }

  function Field(f: Bytes): Bytes {
    Size(|f|) + f
  }

  function Marshal(fields: seq<Bytes>): Bytes {
    if fields == [] then [] else Field(fields[0]) + Marshal(fields[1..])
  }

  lemma {:induction false} MarshalSnoc(fields: seq<Bytes>, f: Bytes)
    ensures Marshal(fields + [f]) == Marshal(fields) + Field(f)
  {
    hide Field;
    if fields == [] {
      assert [f][1..] == [];
    } else {
      MarshalSnoc(fields[1..], f);
      assert (fields + [f])[1..] == fields[1..] + [f];
      assert (fields + [f])[0] == fields[0];
      assert Field(fields[0]) + (Marshal(fields[1..]) + Field(f)) == Field(fields[0]) + Marshal(fields[1..]) + Field(f);
    }
  }

  method MarshalFields(fields: seq<Bytes>) returns (encoded: Bytes)
    ensures encoded == Marshal(fields)
  {
    encoded := [];
    var i := 0;
    while i < |fields|
      invariant 0 <= i <= |fields| && encoded == Marshal(fields[..i])
    {
      MarshalSnoc(fields[..i], fields[i]);
      assert fields[..i + 1] == fields[..i] + [fields[i]];
      encoded := encoded + Size(|fields[i]|) + fields[i];
      i := i + 1;
    }
    assert fields[..|fields|] == fields;
  }

  /** What the length prefix promises: the field is as long as it says. */
  lemma FieldPrefix(f: Bytes, rest: Bytes)
    requires |f| < UINT32
    ensures var e := Field(f) + rest;
      |e| >= 4 && Uint32(e[..4]) == |f| && e[4..][..|f|] == f && e[4..][|f|..] == rest
  {
    var e := Field(f) + rest;
    SizeRoundTrip(|f|);
    assert e[..4] == Size(|f|);
    assert e[4..] == f + rest;
  }

  ghost predicate Short(fields: seq<Bytes>) {
    forall i :: 0 <= i < |fields| ==> |fields[i]| < UINT32
  }

  /** Lists of fields, of whatever number, never share an encoding. */
  lemma {:induction false} MarshalInjective(a: seq<Bytes>, b: seq<Bytes>)
    requires Short(a) && Short(b)
    ensures Marshal(a) == Marshal(b) ==> a == b
  {
    hide Uint32, Size;
    if a != [] && b != [] && Marshal(a) == Marshal(b) {
      FieldPrefix(a[0], Marshal(a[1..]));
      FieldPrefix(b[0], Marshal(b[1..]));
      MarshalInjective(a[1..], b[1..]);
      assert a == [a[0]] + a[1..] && b == [b[0]] + b[1..];
    }
  }

  // ----- parsing -----

  function MaxField(index: nat): nat {
    if index == 0 then 26
    else if index == 1 then 2
    else if index == 2 then 64
    else if index == 3 then MAX_PLAINTEXT + 28
    else if index == 4 then 60
    else 0
  }

  function ParseFrom(encoded: Bytes, index: nat, want: nat): Option<seq<Bytes>>
    requires index <= want
    decreases want - index
  {
    if index == want then (if encoded == [] then Some([]) else None)
    else if |encoded| < 4 then None
    else
      var n, rest := Uint32(encoded[..4]), encoded[4..];
      if n > |rest| || n > MaxField(index) then None
      else
        match ParseFrom(rest[n..], index + 1, want)
        case None => None
        case Some(fields) => Some([rest[..n]] + fields)
  }

  method ParseFields(encoded: Bytes, want: nat) returns (r: Option<seq<Bytes>>)
    ensures r == ParseFrom(encoded, 0, want)
  {
    hide Uint32, MaxField;
    var fields: seq<Bytes>, left := [], encoded;
    assert ParseFrom(encoded, 0, want).Some? ==> [] + ParseFrom(encoded, 0, want).value == ParseFrom(encoded, 0, want).value;
    while |fields| < want
      invariant |fields| <= want
      invariant ParseFrom(encoded, 0, want) == Prepend(fields, ParseFrom(left, |fields|, want))
      decreases want - |fields|
    {
      if |left| < 4 {
        return None;
      }
      var n := Uint32(left[..4]);
      var rest := left[4..];
      if n > |rest| || n > MaxField(|fields|) {
        return None;
      }
      PrependSnoc(fields, rest[..n], ParseFrom(rest[n..], |fields| + 1, want));
      fields, left := fields + [rest[..n]], rest[n..];
    }
    r := if left == [] then Some(fields) else None;
    assert fields + [] == fields;
  }

  function Prepend(fields: seq<Bytes>, r: Option<seq<Bytes>>): Option<seq<Bytes>> {
    match r
    case None => None
    case Some(more) => Some(fields + more)
  }

  lemma PrependSnoc(fields: seq<Bytes>, f: Bytes, r: Option<seq<Bytes>>)
    ensures Prepend(fields + [f], r) == Prepend(fields, Prepend([f], r))
  {
    if r.Some? {
      assert fields + [f] + r.value == fields + ([f] + r.value);
    }
  }

  ghost predicate Bounded(fields: seq<Bytes>, index: nat) {
    forall i :: 0 <= i < |fields| ==> |fields[i]| <= MaxField(index + i)
  }

  lemma {:induction false} ParseMarshal(fields: seq<Bytes>, index: nat)
    requires Bounded(fields, index)
    ensures ParseFrom(Marshal(fields), index, index + |fields|) == Some(fields)
    decreases |fields|
  {
    hide Uint32, Size, MaxField;
    if fields != [] {
      MaxFieldFits(index);
      assert |fields[0]| <= MaxField(index + 0);
      FieldPrefix(fields[0], Marshal(fields[1..]));
      forall i | 0 <= i < |fields| - 1 ensures |fields[1..][i]| <= MaxField(index + 1 + i) {
        assert |fields[i + 1]| <= MaxField(index + (i + 1));
      }
      ParseMarshal(fields[1..], index + 1);
      assert fields == [fields[0]] + fields[1..];
    }
  }

  lemma MaxFieldFits(index: nat)
    ensures MaxField(index) < UINT32
  {
  }

  lemma FieldOfPrefix(encoded: Bytes)
    requires |encoded| >= 4 && Uint32(encoded[..4]) <= |encoded| - 4
    ensures var n := Uint32(encoded[..4]); encoded == Field(encoded[4..][..n]) + encoded[4..][n..]
  {
    hide Uint32, Size;
    var n := Uint32(encoded[..4]);
    SizeOfUint32(encoded[..4]);
    assert encoded == encoded[..4] + (encoded[4..][..n] + encoded[4..][n..]);
  }

  lemma BoundedCons(f: Bytes, more: seq<Bytes>, index: nat)
    requires |f| <= MaxField(index) && Bounded(more, index + 1)
    ensures Bounded([f] + more, index)
  {
    hide MaxField;
    var fields := [f] + more;
    forall i | 0 <= i < |fields| ensures |fields[i]| <= MaxField(index + i) {
      if i > 0 {
        assert |more[i - 1]| <= MaxField(index + 1 + (i - 1));
      }
    }
  }

  lemma {:induction false} MarshalParse(encoded: Bytes, index: nat, want: nat)
    requires index <= want && ParseFrom(encoded, index, want).Some?
    ensures var fields := ParseFrom(encoded, index, want).value;
      |fields| == want - index && Bounded(fields, index) && Marshal(fields) == encoded
    decreases want - index
  {
    hide Uint32, Field, MaxField, Bounded;
    if index < want {
      var n, rest := Uint32(encoded[..4]), encoded[4..];
      MarshalParse(rest[n..], index + 1, want);
      var more := ParseFrom(rest[n..], index + 1, want).value;
      FieldOfPrefix(encoded);
      BoundedCons(rest[..n], more, index);
      assert ([rest[..n]] + more)[1..] == more;
    } else {
      NothingBounded(index);
    }
  }

  lemma NothingBounded(index: nat)
    ensures Bounded([], index) && Marshal([]) == []
  {
  }

  /** A length prefix has its most significant byte first and wraps at 32 bits. */
  lemma SizeBytes(n: nat)
    ensures Size(n) == [n / 16777216 % 256, n / 65536 % 256, n / 256 % 256, n % 256]
  {
    assert n / 256 / 256 == n / 65536 && n / 65536 / 256 == n / 16777216;
    assert BigEndian(n, 4) == BigEndian(n / 256, 3) + [n % 256];
    assert BigEndian(n / 256, 3) == BigEndian(n / 65536, 2) + [n / 256 % 256];
    assert BigEndian(n / 65536, 2) == BigEndian(n / 16777216, 1) + [n / 65536 % 256];
    assert BigEndian(n / 16777216, 1) == BigEndian(n / 16777216 / 256, 0) + [n / 16777216 % 256];
  }

  // ----- envelopes -----

  datatype Sealed = Sealed(suite: Bytes, aadVersion: Bytes, kekID: Bytes, ciphertext: Bytes, wrappedDEK: Bytes)

  predicate KeyByte(c: Byte) {
    97 <= c <= 122 || 65 <= c <= 90 || 48 <= c <= 57 || c == 95 || c == 45
  }

  /** Every allowed character is a single byte, so the rune test is a byte test. */
  predicate ValidKeyID(id: Bytes) {
    0 < |id| <= 64 && forall i :: 0 <= i < |id| ==> KeyByte(id[i])
  }

  predicate ValidEnvelope(e: Sealed) {
    && e.suite == SUITE && e.aadVersion == AAD_VERSION && ValidKeyID(e.kekID)
    && 28 <= |e.ciphertext| <= MAX_PLAINTEXT + 28 && |e.wrappedDEK| == 60
  }

  function Fields(e: Sealed): seq<Bytes> {
    [e.suite, e.aadVersion, e.kekID, e.ciphertext, e.wrappedDEK]
  }

  function MarshalBinary(e: Sealed): Option<Bytes> {
    if ValidEnvelope(e) then Some(Marshal(Fields(e))) else None
  }

  function ParseEnvelope(encoded: Bytes): Option<Sealed> {
    if |encoded| > MAX_SERIALIZED then None
    else
      match ParseFrom(encoded, 0, 5)
      case None => None
      case Some(f) =>
        if |f| != 5 then None
        else
          var e := Sealed(f[0], f[1], f[2], f[3], f[4]);
          if ValidEnvelope(e) then Some(e) else None
  }

  function TotalSize(fields: seq<Bytes>): nat {
    if fields == [] then 0 else 4 + |fields[0]| + TotalSize(fields[1..])
  }

  lemma {:induction false} MarshalSize(fields: seq<Bytes>)
    ensures |Marshal(fields)| == TotalSize(fields)
  {
    hide Size;
    if fields != [] {
      MarshalSize(fields[1..]);
    }
  }

  lemma FiveFields(e: Sealed)
    ensures TotalSize(Fields(e)) == 20 + |e.suite| + |e.aadVersion| + |e.kekID| + |e.ciphertext| + |e.wrappedDEK|
  {
    var f0: seq<Bytes> := Fields(e);
    var f1: seq<Bytes> := f0[1..];
    var f2: seq<Bytes> := f1[1..];
    var f3: seq<Bytes> := f2[1..];
    var f4: seq<Bytes> := f3[1..];
    assert f1[0] == e.aadVersion && f2[0] == e.kekID && f3[0] == e.ciphertext && f4[0] == e.wrappedDEK;
    assert f4[1..] == [];
    assert TotalSize(f4) == 4 + |f4[0]| && TotalSize(f3) == 4 + |f3[0]| + TotalSize(f4);
    assert TotalSize(f2) == 4 + |f2[0]| + TotalSize(f3) && TotalSize(f1) == 4 + |f1[0]| + TotalSize(f2);
  }

  /** No valid envelope exceeds the size bound. */
  lemma EnvelopeFits(e: Sealed)
    requires ValidEnvelope(e)
    ensures |Marshal(Fields(e))| <= MAX_SERIALIZED
  {
    MarshalSize(Fields(e));
    FiveFields(e);
  }

  /** Writing and reading a valid envelope gives it back. */
  lemma EnvelopeRoundTrip(e: Sealed)
    requires ValidEnvelope(e)
    ensures MarshalBinary(e).Some? && ParseEnvelope(MarshalBinary(e).value) == Some(e)
  {
    hide ParseFrom, Marshal, TotalSize;
    EnvelopeFits(e);
    ParseMarshal(Fields(e), 0);
  }

  /** Whatever is accepted is exactly what would have been written. */
  lemma AcceptedIsCanonical(encoded: Bytes)
    requires ParseEnvelope(encoded).Some?
    ensures MarshalBinary(ParseEnvelope(encoded).value) == Some(encoded)
  {
    hide ParseFrom, Marshal, Bounded;
    MarshalParse(encoded, 0, 5);
    var f := ParseFrom(encoded, 0, 5).value;
    assert f == [f[0], f[1], f[2], f[3], f[4]];
  }

  // ----- scopes and authenticated data -----

  datatype Scope = Scope(
    owner: Bytes, project: Bytes, environment: Bytes, variable: Bytes, version: Bytes, purpose: Bytes, delivery: Bytes)

  predicate ValidScopeField(f: Bytes) {
    0 < |f| <= 255 && ValidUtf8(f) && 0 !in f && 13 !in f && 10 !in f
  }

  predicate ValidScope(s: Scope) {
    && ValidScopeField(s.owner) && ValidScopeField(s.project) && ValidScopeField(s.environment)
    && ValidScopeField(s.variable) && ValidScopeField(s.version) && ValidScopeField(s.purpose) && ValidScopeField(s.delivery)
    && (s.purpose == BUILD || s.purpose == RUNTIME || s.purpose == PROVIDER)
    && (s.delivery == BUILD || s.delivery == RUNTIME)
  }

  function ScopeFields(s: Scope): seq<Bytes> {
    [s.owner, s.project, s.environment, s.variable, s.version, s.purpose, s.delivery]
  }

  function ValueFields(s: Scope): seq<Bytes> {
    [VALUE_DOMAIN, SUITE, AAD_VERSION] + ScopeFields(s)
  }

  function WrapFields(kekID: Bytes, s: Scope): seq<Bytes> {
    [WRAP_DOMAIN, SUITE, AAD_VERSION, kekID] + ScopeFields(s)
  }

  function ValueAAD(s: Scope): Bytes {
    Marshal(ValueFields(s))
  }

  function WrapAAD(kekID: Bytes, s: Scope): Bytes {
    Marshal(WrapFields(kekID, s))
  }

  /** Every field of a scope is a short nonempty line of text, and its purpose and delivery are known. */
  lemma ScopeExactly(s: Scope)
    ensures ValidScope(s) <==>
      && (forall i :: 0 <= i < 7 ==> var f := ScopeFields(s)[i]; 1 <= |f| <= 255 && ValidUtf8(f) && forall b :: b in f ==> b !in {0, 10, 13})
      && s.purpose in {BUILD, RUNTIME, PROVIDER} && s.delivery in {BUILD, RUNTIME}
  {
    hide ValidUtf8, BUILD, RUNTIME, PROVIDER;
    var f := ScopeFields(s);
    assert f[0] == s.owner && f[1] == s.project && f[2] == s.environment && f[3] == s.variable && f[4] == s.version;
    assert f[5] == s.purpose && f[6] == s.delivery;
  }

  lemma ScopeFieldsInjective(a: Scope, b: Scope)
    ensures ScopeFields(a) == ScopeFields(b) ==> a == b
  {
    var x, y := ScopeFields(a), ScopeFields(b);
    if x == y {
      assert x[0] == y[0] && x[1] == y[1] && x[2] == y[2] && x[3] == y[3] && x[4] == y[4] && x[5] == y[5] && x[6] == y[6];
    }
  }

  lemma AadShort(kekID: Bytes, s: Scope)
    requires ValidScope(s) && |kekID| < UINT32
    ensures Short(ValueFields(s)) && Short(WrapFields(kekID, s))
  {
    hide ValidUtf8;
  }

  /** Distinct scopes never share authenticated data for their values. */
  lemma ValueAADInjective(a: Scope, b: Scope)
    requires ValidScope(a) && ValidScope(b)
    ensures ValueAAD(a) == ValueAAD(b) ==> a == b
  {
    hide Marshal, ValidScope, Short, ScopeFields;
    AadShort([], a);
    AadShort([], b);
    MarshalInjective(ValueFields(a), ValueFields(b));
    assert ValueFields(a)[3..] == ScopeFields(a) && ValueFields(b)[3..] == ScopeFields(b);
    ScopeFieldsInjective(a, b);
  }

  lemma WrapAADInjective(k: Bytes, a: Scope, l: Bytes, b: Scope)
    requires ValidScope(a) && ValidScope(b) && |k| < UINT32 && |l| < UINT32
    ensures WrapAAD(k, a) == WrapAAD(l, b) ==> k == l && a == b
  {
    hide Marshal, ValidScope, Short, ScopeFields;
    AadShort(k, a);
    AadShort(l, b);
    MarshalInjective(WrapFields(k, a), WrapFields(l, b));
    assert WrapFields(k, a)[4..] == ScopeFields(a) && WrapFields(l, b)[4..] == ScopeFields(b);
    assert WrapFields(k, a)[3] == k && WrapFields(l, b)[3] == l;
    ScopeFieldsInjective(a, b);
  }

  /** A wrapped key is never taken for a value, nor a value for a wrapped key. */
  lemma AADDisjoint(a: Scope, k: Bytes, b: Scope)
    requires ValidScope(a) && ValidScope(b) && |k| < UINT32
    ensures ValueAAD(a) != WrapAAD(k, b)
  {
    hide Marshal, ValidScope, Short, ScopeFields;
    AadShort(k, a);
    AadShort(k, b);
    MarshalInjective(ValueFields(a), WrapFields(k, b));
    assert |ValueFields(a)[0]| == 26 && |WrapFields(k, b)[0]| == 29;
  }

  // ----- a reader of fields -----

  /** The n-th length-prefixed field. */
  function Nth(encoded: Bytes, n: nat): Option<Bytes> {
    if |encoded| < 4 || Uint32(encoded[..4]) > |encoded| - 4 then None
    else if n == 0 then Some(encoded[4..4 + Uint32(encoded[..4])])
    else Nth(encoded[4 + Uint32(encoded[..4])..], n - 1)
  }

  lemma {:induction false} NthOfMarshal(fields: seq<Bytes>, n: nat)
    requires Short(fields) && n < |fields|
    ensures Nth(Marshal(fields), n) == Some(fields[n])
  {
    hide Uint32, Size;
    var e, f := Marshal(fields), fields[0];
    FieldPrefix(f, Marshal(fields[1..]));
    assert e[4..][..|f|] == e[4..4 + |f|] && e[4..][|f|..] == e[4 + |f|..];
    if n > 0 {
      NthOfMarshal(fields[1..], n - 1);
    }
  }

  /** The fields of the value data, in their order. */
  lemma ValueDataReads(s: Scope)
    requires ValidScope(s)
    ensures var e := ValueAAD(s);
      && Nth(e, 0) == Some(VALUE_DOMAIN) && Nth(e, 1) == Some(SUITE) && Nth(e, 2) == Some(AAD_VERSION)
      && Nth(e, 3) == Some(s.owner) && Nth(e, 4) == Some(s.project) && Nth(e, 5) == Some(s.environment)
      && Nth(e, 6) == Some(s.variable) && Nth(e, 7) == Some(s.version) && Nth(e, 8) == Some(s.purpose) && Nth(e, 9) == Some(s.delivery)
  {
    hide Nth, Marshal, ValidScope, VALUE_DOMAIN, SUITE, AAD_VERSION;
    AadShort([], s);
    var f := ValueFields(s);
    forall n: nat | n < |f| ensures Nth(Marshal(f), n) == Some(f[n]) {
      NthOfMarshal(f, n);
    }
  }

  /** And of the wrap data, with the key's identifier before the scope. */
  lemma WrapDataReads(id: Bytes, s: Scope)
    requires ValidScope(s) && |id| < UINT32
    ensures var e := WrapAAD(id, s);
      && Nth(e, 0) == Some(WRAP_DOMAIN) && Nth(e, 1) == Some(SUITE) && Nth(e, 2) == Some(AAD_VERSION) && Nth(e, 3) == Some(id)
      && Nth(e, 4) == Some(s.owner) && Nth(e, 5) == Some(s.project) && Nth(e, 6) == Some(s.environment)
      && Nth(e, 7) == Some(s.variable) && Nth(e, 8) == Some(s.version) && Nth(e, 9) == Some(s.purpose) && Nth(e, 10) == Some(s.delivery)
  {
    hide Nth, Marshal, ValidScope, WRAP_DOMAIN, SUITE, AAD_VERSION;
    AadShort(id, s);
    var f := WrapFields(id, s);
    forall n: nat | n < |f| ensures Nth(Marshal(f), n) == Some(f[n]) {
      NthOfMarshal(f, n);
    }
  }

  /** And of an envelope; only valid ones are written. */
  lemma EnvelopeReads(e: Sealed)
    ensures MarshalBinary(e).Some? <==> ValidEnvelope(e)
    ensures ValidEnvelope(e) ==> var b := MarshalBinary(e).value;
      && Nth(b, 0) == Some(SUITE) && Nth(b, 1) == Some(AAD_VERSION) && Nth(b, 2) == Some(e.kekID)
      && Nth(b, 3) == Some(e.ciphertext) && Nth(b, 4) == Some(e.wrappedDEK)
  {
    hide Nth, Marshal;
    if ValidEnvelope(e) {
      var f := Fields(e);
      assert Short(f);
      forall n: nat | n < |f| ensures Nth(Marshal(f), n) == Some(f[n]) {
        NthOfMarshal(f, n);
      }
    }
  }
}
