/** From secret values to the patterns a redactor looks for, and whole redacted streams. */
module Patterns {
  import opened Text
  import opened Matcher
  import opened Redactor
  import opened Wrappers
  import Base64

  const MAX_RAW_BYTES: nat := 0x80_0000

  /** The three spellings of one secret. */
  function Spellings(value: Bytes): seq<Bytes> {
    [value, Base64.Encode(value), Base64.EncodeRaw(value)]
  }

  /** Every spelling of every nonempty value. */
  ghost function Derived(values: seq<Bytes>): set<Bytes> {
    set v, p | v in values && v != [] && p in Spellings(v) :: p
  }

  lemma MarkerText(i: nat)
    requires i < 10
    ensures |MARKER| == 10 && MARKER[i] as char == "[REDACTED]"[i]
  {
  }

  /** The text gives the secret away: it is the secret, or unpadded or padded base64 of it. */
  predicate Reveals(text: Bytes, secret: Bytes) {
    text == secret || Base64.DecodeCanonical(text) == Some(secret) || DecodesPadded(text, secret)
  }

  predicate DecodesPadded(text: Bytes, secret: Bytes) {
    |text| % 4 == 0 && exists n :: 0 <= n <= |text| && PaddedAt(text, secret, n)
  }

  predicate PaddedAt(text: Bytes, secret: Bytes, n: nat) {
    n <= |text| && text[n..] <= [Base64.PAD, Base64.PAD] && Base64.DecodeCanonical(text[..n]) == Some(secret)
  }

  lemma GroupRest(n: nat)
    ensures ((4 * n + 2) / 3) % 4 == if n % 3 == 0 then 0 else n % 3 + 1
  {
    var k, r := n / 3, n % 3;
    assert n == 3 * k + r;
    assert (4 * n + 2) / 3 == 4 * k + (4 * r + 2) / 3;
  }

  function PadOf(rest: nat): Bytes {
    if rest == 0 then [] else if rest == 1 then [Base64.PAD, Base64.PAD] else [Base64.PAD]
  }

  lemma PadIsUnique(length: nat, rest: nat, pad: Bytes)
    requires rest < 3 && length % 4 == (if rest == 0 then 0 else rest + 1) && pad <= [Base64.PAD, Base64.PAD]
    ensures (length + |pad|) % 4 == 0 <==> pad == PadOf(rest)
  {
    var m := length / 4;
    assert length == 4 * m + length % 4;
    assert |pad| == 0 || |pad| == 1 || |pad| == 2;
    assert |pad| == 1 ==> pad == [Base64.PAD];
    assert |pad| == 2 ==> pad == [Base64.PAD, Base64.PAD];
  }

  /** Padding fills up to whole groups of four, in the only way. */
  lemma Padding(secret: Bytes, pad: Bytes)
    ensures Base64.Encode(secret) == Base64.EncodeRaw(secret) + PadOf(|secret| % 3)
    ensures pad <= [Base64.PAD, Base64.PAD] ==> ((|Base64.EncodeRaw(secret)| + |pad|) % 4 == 0 <==> pad == PadOf(|secret| % 3))
  {
    hide Base64.EncodeRaw;
    Base64.QuadsRoundTrip(secret);
    GroupRest(|secret|);
    if pad <= [Base64.PAD, Base64.PAD] {
      PadIsUnique(|Base64.EncodeRaw(secret)|, |secret| % 3, pad);
    }
  }

  /** The padded form is the unpadded one, filled up to whole groups. */
  lemma PaddedExactly(text: Bytes, secret: Bytes)
    requires secret != []
    ensures DecodesPadded(text, secret) <==> text == Base64.Encode(secret)
  {
    hide Base64.EncodeRaw, Base64.Encode, Base64.DecodeCanonical;
    var raw := Base64.EncodeRaw(secret);
    var pad := PadOf(|secret| % 3);
    Padding(secret, pad);
    Base64.CanonicalExactly(raw, secret);
    if text == Base64.Encode(secret) {
      assert text[..|raw|] == raw && text[|raw|..] == pad;
      assert PaddedAt(text, secret, |raw|);
    }
    if DecodesPadded(text, secret) {
      var n :| 0 <= n <= |text| && PaddedAt(text, secret, n);
      Base64.CanonicalExactly(text[..n], secret);
      assert text == raw + text[n..];
      Padding(secret, text[n..]);
    }
  }

  /** The patterns are exactly the texts that give a value away. */
  lemma DerivedExactly(values: seq<Bytes>, p: Bytes)
    ensures p in Derived(values) <==> exists v :: v in values && v != [] && Reveals(p, v)
  {
    hide Base64.EncodeRaw, Base64.Encode, Base64.DecodeCanonical, DecodesPadded;
    forall v: Bytes | v != [] ensures p in Spellings(v) <==> Reveals(p, v) {
      Base64.CanonicalExactly(p, v);
      PaddedExactly(p, v);
    }
  }

  /** What contains no pattern gives no value away. */
  lemma NothingRevealed(values: seq<Bytes>, text: Bytes)
    requires !ContainsPattern(Derived(values), text)
    ensures Discreet(values, text)
  {
    hide Reveals, Derived;
    forall v, p, i: nat | v in values && v != [] && Reveals(p, v) ensures !OccursAt(text, p, i) {
      DerivedExactly(values, p);
      RevealingIsNotEmpty(p, v);
      assert OccursAt(text, p, i) ==> Matches(Derived(values), text, i, |p|);
    }
  }

  lemma RevealingIsNotEmpty(p: Bytes, v: Bytes)
    requires v != [] && Reveals(p, v)
    ensures p != []
  {
  }

  /** Nowhere does the text spell out a nonempty value, plain or in base64. */
  ghost predicate Discreet(values: seq<Bytes>, text: Bytes) {
    forall v, p, i: nat :: v in values && v != [] && Reveals(p, v) ==> !OccursAt(text, p, i)
  }

  ghost predicate Acceptable(values: seq<Bytes>) {
    && |Flatten(values)| <= MAX_RAW_BYTES
    && |Derived(values)| <= MAX_PATTERNS
    && !ContainsPattern(Derived(values), MARKER)
  }

  predicate OccursAt(haystack: Bytes, needle: Bytes, i: nat) {
    i + |needle| <= |haystack| && haystack[i..i + |needle|] == needle
  }

  /** First occurrence of needle in haystack, or -1. */
  method IndexBytes(haystack: Bytes, needle: Bytes) returns (index: int)
    ensures index >= 0 ==> OccursAt(haystack, needle, index) && forall i: nat :: i < index ==> !OccursAt(haystack, needle, i)
    ensures index < 0 ==> forall i: nat :: !OccursAt(haystack, needle, i)
  {
    var i: nat := 0;
    while i + |needle| <= |haystack|
      invariant forall k: nat :: k < i ==> !OccursAt(haystack, needle, k)
    {
      var equal := true;
      var j := 0;
      while j < |needle|
        invariant 0 <= j <= |needle|
        invariant equal && haystack[i..i + j] == needle[..j]
      {
        if haystack[i + j] != needle[j] {
          equal := false;
          assert haystack[i..i + |needle|][j] != needle[j];
          break;
        }
        assert haystack[i..i + (j + 1)] == haystack[i..i + j] + [haystack[i + j]];
        j := j + 1;
      }
      if equal {
        assert needle[..|needle|] == needle;
        return i;
      }
      i := i + 1;
    }
    return -1;
  }

  method ContainsMarkerConflict(pattern: Bytes) returns (conflict: bool)
    ensures conflict <==> ContainsPattern({pattern}, MARKER)
  {
    hide MARKER;
    if |pattern| == 0 {
      return false;
    }
    var index := IndexBytes(MARKER, pattern);
    if index >= 0 {
      assert Matches({pattern}, MARKER, index, |pattern|);
    }
    OnePattern(pattern, MARKER);
    conflict := index >= 0;
  }

  lemma OnePattern(pattern: Bytes, text: Bytes)
    ensures ContainsPattern({pattern}, text) ==> exists i: nat :: OccursAt(text, pattern, i)
  {
    if ContainsPattern({pattern}, text) {
      var i, n :| 0 <= i <= |text| && 0 <= n <= |text| && Matches({pattern}, text, i, n);
      assert OccursAt(text, pattern, i);
    }
  }

  lemma ConflictSpreads(few: set<Bytes>, many: set<Bytes>, text: Bytes)
    requires few <= many
    ensures ContainsPattern(few, text) ==> ContainsPattern(many, text)
  {
    if ContainsPattern(few, text) {
      var i, n :| 0 <= i <= |text| && 0 <= n <= |text| && Matches(few, text, i, n);
      assert Matches(many, text, i, n);
    }
  }

  lemma ConflictEither(some: set<Bytes>, p: Bytes, text: Bytes)
    ensures ContainsPattern(some + {p}, text) ==> ContainsPattern(some, text) || ContainsPattern({p}, text)
  {
    if ContainsPattern(some + {p}, text) {
      var i, n :| 0 <= i <= |text| && 0 <= n <= |text| && Matches(some + {p}, text, i, n);
      assert Matches(some, text, i, n) || Matches({p}, text, i, n);
    }
  }

  ghost function Gathered(values: seq<Bytes>, n: nat, k: nat): set<Bytes>
    requires n < |values| && k <= 3
  {
    Derived(values[..n]) + if values[n] == [] then {} else Elements(Spellings(values[n])[..k])
  }

  lemma GatheredWithin(values: seq<Bytes>, n: nat)
    requires n < |values|
    ensures Gathered(values, n, 3) == Derived(values[..n + 1]) <= Derived(values)
    ensures forall p :: p in Spellings(values[n]) && values[n] != [] ==> p in Derived(values)
  {
    assert values[..n + 1] == values[..n] + [values[n]];
    assert Spellings(values[n])[..3] == Spellings(values[n]);
    assert forall v :: v in values[..n + 1] ==> v in values;
  }

  /** Deduplicated spellings of all values, or a refusal exactly when they are not acceptable. */
  method RedactionPatterns(values: seq<Bytes>) returns (ok: bool, patterns: seq<Bytes>)
    ensures ok <==> Acceptable(values)
    ensures ok ==> Elements(patterns) == Derived(values) && |patterns| == |Derived(values)|
  {
    hide MARKER, ContainsPattern, Derived, Spellings;
    var unique: set<Bytes>, total := {}, 0;
    patterns := [];
    NothingDerived(values[..0]);
    var n := 0;
    while n < |values|
      invariant 0 <= n <= |values|
      invariant total == |Flatten(values[..n])| <= MAX_RAW_BYTES
      invariant unique == Elements(patterns) == Derived(values[..n]) && |unique| == |patterns| <= MAX_PATTERNS
      invariant !ContainsPattern(unique, MARKER)
    {
      var value := values[n];
      GatheredWithin(values, n);
      assert values[..n + 1][..n] == values[..n];
      FlattenPrefix(values, n + 1);
      if |value| == 0 {
        n := n + 1;
        continue;
      }
      if |value| > MAX_RAW_BYTES - total {
        return false, [];
      }
      total := total + |value|;
      var added;
      added, unique, patterns := AddSpellings(values, n, unique, patterns);
      if !added {
        return false, [];
      }
      n := n + 1;
    }
    assert values[..|values|] == values;
    ok := true;
  }

  lemma NothingDerived(values: seq<Bytes>)
    requires values == []
    ensures Derived(values) == {} && !ContainsPattern({}, MARKER)
  {
  }

  method AddSpellings(values: seq<Bytes>, n: nat, unique0: set<Bytes>, patterns0: seq<Bytes>)
    returns (ok: bool, unique: set<Bytes>, patterns: seq<Bytes>)
    requires n < |values| && values[n] != [] && !ContainsPattern(unique0, MARKER)
    requires unique0 == Elements(patterns0) == Derived(values[..n]) && |unique0| == |patterns0| <= MAX_PATTERNS
    ensures ok ==> unique == Elements(patterns) == Derived(values[..n + 1]) && |unique| == |patterns| <= MAX_PATTERNS
    ensures ok ==> !ContainsPattern(unique, MARKER)
    ensures !ok ==> !Acceptable(values)
  {
    hide MARKER, ContainsPattern, Derived, Spellings;
    ok, unique, patterns := true, unique0, patterns0;
    var spellings := Spellings(values[n]);
    GatheredWithin(values, n);
    ThreeSpellings(values[n]);
    var k := 0;
    while k < 3
      invariant 0 <= k <= 3 && |spellings| == 3
      invariant unique == Elements(patterns) == Gathered(values, n, k) && |unique| == |patterns| <= MAX_PATTERNS
      invariant !ContainsPattern(unique, MARKER)
    {
      var pattern := spellings[k];
      assert spellings[..k + 1] == spellings[..k] + [pattern];
      assert Gathered(values, n, k + 1) == Gathered(values, n, k) + {pattern};
      assert Gathered(values, n, k) <= Gathered(values, n, 3) by { GatheredGrows(values, n, k); }
      if pattern !in unique {
        if |patterns| >= MAX_PATTERNS {
          SubsetSize(unique + {pattern}, Derived(values));
          return false, unique, patterns;
        }
        var conflict := ContainsMarkerConflict(pattern);
        if conflict {
          ConflictSpreads({pattern}, Derived(values), MARKER);
          return false, unique, patterns;
        }
        ConflictEither(unique, pattern, MARKER);
        unique := unique + {pattern};
        patterns := patterns + [pattern];
      } else {
        assert Gathered(values, n, k + 1) == Gathered(values, n, k);
      }
      k := k + 1;
    }
  }

  lemma ThreeSpellings(value: Bytes)
    ensures |Spellings(value)| == 3
  {
  }

  lemma GatheredGrows(values: seq<Bytes>, n: nat, k: nat)
    requires n < |values| && k <= 3
    ensures Gathered(values, n, k) <= Gathered(values, n, 3)
  {
    var s := Spellings(values[n]);
    assert forall p :: p in s[..k] ==> p in s[..3];
  }

  // ----- whole streams -----

  method NewRedactingWriter(dst: Destination?, values: seq<Bytes>) returns (w: Writer?)
    requires dst != null ==> dst.received == []
    ensures w != null <==> dst != null && Acceptable(values) && |Prefixes(Derived(values))| <= MAX_NODES
    ensures w != null ==> fresh(w) && fresh(w.candidateStarts) && fresh(w.candidateLengths)
    ensures w != null ==> w.Valid() && !w.failed && w.dst == dst && w.pats == Derived(values)
    ensures w != null ==> w.source == [] && w.segBase == w.segOut == 0
  {
    hide Correct, Acceptable, Derived, Prefixes;
    if dst == null {
      return null;
    }
    var ok, patterns := RedactionPatterns(values);
    if !ok {
      return null;
    }
    var made, matcher, paths := NewMatcher(patterns);
    if !made {
      return null;
    }
    w := new Writer(dst, matcher, paths, Derived(values));
  }

  ghost function Flatten(chunks: seq<Bytes>): Bytes {
    if chunks == [] then [] else Flatten(chunks[..|chunks| - 1]) + chunks[|chunks| - 1]
  }

  lemma {:induction false} FlattenPrefix(chunks: seq<Bytes>, n: nat)
    requires n <= |chunks|
    ensures Flatten(chunks[..n]) <= Flatten(chunks)
    decreases |chunks| - n
  {
    if n < |chunks| {
      assert chunks[..n + 1][..n] == chunks[..n];
      FlattenPrefix(chunks, n + 1);
    } else {
      assert chunks[..n] == chunks;
    }
  }

  /** Why a run may fail: the destination did, the redacted text itself contains a pattern, or the
      input asks for more matching work than the budget. */
  ghost predicate Excused(pats: set<Bytes>, input: Bytes, faulted: bool) {
    faulted || ContainsPattern(pats, Redact(pats, input)) || !WithinBudget(pats, input)
  }

  /** No beginning of the input asks for more matching work than the budget. */
  ghost predicate WithinBudget(pats: set<Bytes>, input: Bytes) {
    forall text :: text <= input ==> !OverBudget(pats, text)
  }

  /** A whole run: any values, any split of the input, one Close. */
  method RedactStream(dst: Destination, values: seq<Bytes>, chunks: seq<Bytes>) returns (made: bool, ok: bool)
    requires dst.received == []
    modifies dst
    ensures made <==> Acceptable(values) && |Prefixes(Derived(values))| <= MAX_NODES
    ensures !made ==> !ok && dst.received == []
    ensures ok ==> dst.received == Redact(Derived(values), Flatten(chunks))
    ensures dst.received <= Redact(Derived(values), Flatten(chunks))
    ensures !ContainsPattern(Derived(values), dst.received) && Discreet(values, dst.received)
    ensures made && !ok ==> Excused(Derived(values), Flatten(chunks), dst.faulted)
    ensures ok && Derived(values) != {} ==> Affordable(Derived(values), Flatten(chunks))
    ensures made && !dst.faulted && WithinBudget(Derived(values), Flatten(chunks)) ==>
      (ok <==> !ContainsPattern(Derived(values), Redact(Derived(values), Flatten(chunks))))
  {
    hide Acceptable, Derived, Prefixes, RedactFrom, ContainsPattern, WithinBudget, Writer.Valid, Discreet, Affordable;
    NoPatternInNothing(Derived(values));
    NothingRevealed(values, []);
    var w := NewRedactingWriter(dst, values);
    if w == null {
      return false, false;
    }
    made := true;
    var n := 0;
    while n < |chunks|
      invariant 0 <= n <= |chunks|
      invariant w.Valid() && !w.failed && w.segBase == w.segOut == 0 && w.source == Flatten(chunks[..n])
    {
      ghost var before := chunks[..n];
      assert chunks[..n + 1][..n] == before;
      var taken;
      taken, ok := w.Write(chunks[n]);
      FlattenPrefix(chunks, n + 1);
      w.OutputIsSafe();
      NothingRevealed(values, dst.received);
      if !ok {
        FailureExcused(w, Flatten(chunks));
        FailureIsPrefix(w, Flatten(chunks));
        return;
      }
      n := n + 1;
    }
    assert chunks[..|chunks|] == chunks;
    ok := w.Close();
    w.OutputIsSafe();
    NothingRevealed(values, dst.received);
    if !ok {
      FailureExcused(w, Flatten(chunks));
      FailureIsPrefix(w, Flatten(chunks));
    } else {
      assert w.dst.received[0..] == w.dst.received;
      Looking(w, values);
    }
  }

  /** Any pattern at all gives the automaton something to look for. */
  lemma Looking(w: Writer, values: seq<Bytes>)
    requires w.Valid() && w.pats == Derived(values)
    ensures Derived(values) != {} ==> w.matcher.maxPattern > 0
  {
    hide Derived, Reveals, Trie, Spells, Linked, ContainsPattern, OverBudget;
    if p :| p in Derived(values) {
      DerivedExactly(values, p);
      var v :| v in values && v != [] && Reveals(p, v);
      RevealingIsNotEmpty(p, v);
      assert |p| <= w.matcher.maxPattern;
    }
  }

  lemma NoPatternInNothing(pats: set<Bytes>)
    ensures !ContainsPattern(pats, [])
  {
  }

  lemma FailureExcused(w: Writer, input: Bytes)
    requires w.Valid() && w.failed && w.segBase == w.segOut == 0 && w.source <= input
    requires w.cause != Running && w.cause.closing ==> w.source == input
    ensures Excused(w.pats, input, w.dst.faulted)
  {
    hide Correct, OverBudget, ContainsPattern;
    match w.cause {
      case PatternInOutput(b, closing) =>
        assert w.emitted[0..] == w.emitted;
        assert input == w.source + input[|w.source|..];
        TripIsInRedaction(w.pats, w.emitted + [b], Redact(w.pats, input));
      case _ =>
    }
  }

  /** What a failed run delivered is a beginning of the redaction all the same. */
  lemma FailureIsPrefix(w: Writer, input: Bytes)
    requires w.Valid() && w.failed && w.segBase == w.segOut == 0 && w.source <= input
    requires w.cause != Running && w.cause.closing ==> w.source == input
    ensures w.dst.received <= Redact(w.pats, input)
  {
    hide Correct, OverBudget, ContainsPattern, RedactFrom, Writer.Tripped;
    assert w.emitted[0..] == w.emitted;
    assert input == w.source + input[|w.source|..];
    var out := if w.cause.PatternInOutput? then w.emitted + [w.cause.b] else w.emitted;
    assert w.dst.received <= out;
    assert w.source + [] == w.source;
    assert out <= Redact(w.pats, input);
  }

  lemma TripIsInRedaction(pats: set<Bytes>, out: Bytes, whole: Bytes)
    requires out <= whole && exists p :: p in pats && p != [] && IsSuffix(p, out)
    ensures ContainsPattern(pats, whole)
  {
    var p :| p in pats && p != [] && IsSuffix(p, out);
    assert out[|out| - |p|..|out|] == out[|out| - |p|..] == p;
    assert Matches(pats, out, |out| - |p|, |p|);
    ContainsPatternPrefix(pats, out, whole);
  }

  /** Wherever at most three patterns end at a position, no beginning exceeds the budget. */
  lemma FewEndingsWithinBudget(pats: set<Bytes>, input: Bytes)
    requires FewEndings(pats, input) && |input| <= MAX_TRANSITIONS
    ensures WithinBudget(pats, input)
  {
    hide FewEndings, OverBudget;
    forall text | text <= input ensures !OverBudget(pats, text) {
      FewEndingsPrefix(pats, input, text);
      FewEndingsFit(pats, text);
    }
  }

  /** One secret has at most three spellings, so its redactor never runs out of budget. */
  lemma OneSecretFitsBudget(secret: Bytes, input: Bytes)
    ensures FewEndings(Derived([secret]), input)
    ensures |input| <= MAX_TRANSITIONS ==> WithinBudget(Derived([secret]), input)
  {
    hide OverBudget, WithinBudget, FewEndings;
    var s := Spellings(secret);
    assert Derived([secret]) <= {s[0], s[1], s[2]};
    SubsetSize(Derived([secret]), {s[0], s[1], s[2]});
    ThreePatternsFit(Derived([secret]), input);
    if |input| <= MAX_TRANSITIONS {
      FewEndingsWithinBudget(Derived([secret]), input);
    }
  }

  /** So with few endings, and in particular with one secret, a run whose destination does not fail
      succeeds exactly when the redacted text contains no pattern. */
  method RedactWithinBudget(dst: Destination, values: seq<Bytes>, chunks: seq<Bytes>) returns (made: bool, ok: bool)
    requires dst.received == [] && |Flatten(chunks)| <= MAX_TRANSITIONS
    requires |values| == 1 || FewEndings(Derived(values), Flatten(chunks))
    modifies dst
    ensures made <==> Acceptable(values) && |Prefixes(Derived(values))| <= MAX_NODES
    ensures made && !dst.faulted ==> (ok <==> !ContainsPattern(Derived(values), Redact(Derived(values), Flatten(chunks))))
    ensures ok ==> dst.received == Redact(Derived(values), Flatten(chunks))
    ensures dst.received <= Redact(Derived(values), Flatten(chunks))
    ensures !ContainsPattern(Derived(values), dst.received) && Discreet(values, dst.received)
  {
    hide Acceptable, Derived, Prefixes, RedactFrom, ContainsPattern, WithinBudget, FewEndings, Excused, Discreet;
    if |values| == 1 {
      assert values == [values[0]];
      OneSecretFitsBudget(values[0], Flatten(chunks));
    }
    FewEndingsWithinBudget(Derived(values), Flatten(chunks));
    made, ok := RedactStream(dst, values, chunks);
  }
}
