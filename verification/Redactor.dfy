/** The streaming writer: bounded source holdback, candidate ring, work budget, and a second
    scan of the substituted output with its own holdback. */
module Redactor {
  import opened Text
  import opened Matcher
  import Ring

  const CHUNK: nat := 0x8000
  const WORK_PER_BYTE: nat := 8
  const MAX_PATTERNS: nat := 4096
  const MAX_WORK: nat := 0xFFFF_FFFF_FFFF_FFFF
  const MAX_TRANSITIONS: nat := (MAX_WORK - MAX_PATTERNS) / WORK_PER_BYTE

  /** Any io.Writer: it may take a prefix, fail, stall, or report nonsense. `received` is what
      it took from this writer; `faulted` records that it ever broke its contract or failed. */
  class Destination {
    var received: Bytes
    var faulted: bool

    constructor ()
      ensures received == [] && !faulted
    {
      received, faulted := [], false;
    }

    method Write(data: Bytes) returns (n: int, err: bool)
      modifies this
      ensures old(received) <= received <= old(received) + data
      ensures 0 <= n <= |data| ==> received == old(received) + data[..n]
      ensures faulted == (old(faulted) || err || !(0 < n <= |data|))
    {
      var k: nat :| k <= |data|;
      received := received + data[..k];
      var honest: bool;
      honest, err := *, *;
      n := k;
      if !honest {
        var excess: nat, negative: bool := *, *;
        n := if negative then -1 - excess else |data| + 1 + excess;
      }
      faulted := faulted || err || !(0 < n <= |data|);
    }
  }

  method WriteAll(dst: Destination, data: Bytes) returns (ok: bool)
    modifies dst
    ensures old(dst.received) <= dst.received <= old(dst.received) + data
    ensures ok ==> dst.received == old(dst.received) + data && dst.faulted == old(dst.faulted)
    ensures !ok ==> dst.faulted
  {
    var rest := data;
    while |rest| > 0
      invariant |rest| <= |data| && rest == data[|data| - |rest|..]
      invariant dst.received == old(dst.received) + data[..|data| - |rest|]
      invariant dst.faulted == old(dst.faulted)
      decreases |rest|
    {
      ghost var done := |data| - |rest|;
      ghost var before := dst.received;
      var n, err := dst.Write(rest);
      assert before + rest == old(dst.received) + data by { assert data == data[..done] + rest; }
      if n < 0 || n > |rest| {
        return false;
      }
      assert data[..done + n] == data[..done] + rest[..n];
      rest := rest[n..];
      if err || n == 0 {
        return false;
      }
    }
    assert data[..|data|] == data;
    return true;
  }

  // ----- the work a text calls for -----

  /** The nonempty patterns that end where the text ends. */
  ghost function Ending(pats: set<Bytes>, text: Bytes): set<Bytes> {
    set p | p in pats && p != [] && IsSuffix(p, text)
  }

  /** Recording work: one unit per visited state, one per recorded match. */
  ghost function RecordWork(pats: set<Bytes>, text: Bytes): nat {
    if text == [] then 0
    else RecordWork(pats, text[..|text| - 1]) + 1 + 2 * |Ending(pats, text)|
  }

  /** The text asks for more work than the budget grants (resolving costs one unit per byte). */
  ghost predicate OverBudget(pats: set<Bytes>, text: Bytes) {
    |text| > MAX_TRANSITIONS || RecordWork(pats, text) + |text| > MAX_PATTERNS + WORK_PER_BYTE * |text|
  }

  /** How many patterns end in the text, counted at each place. */
  ghost function EndingCount(pats: set<Bytes>, text: Bytes): nat {
    if text == [] then 0 else EndingCount(pats, text[..|text| - 1]) + |Ending(pats, text)|
  }

  /** What a text has to be for its redaction to be paid for: every ending and every byte takes at
      least a unit. */
  ghost predicate Affordable(pats: set<Bytes>, text: Bytes) {
    |text| <= MAX_TRANSITIONS && EndingCount(pats, text) + |text| <= MAX_PATTERNS + WORK_PER_BYTE * |text|
  }

  lemma EndingCountSnoc(pats: set<Bytes>, text: Bytes, b: Byte)
    ensures EndingCount(pats, text + [b]) == EndingCount(pats, text) + |Ending(pats, text + [b])|
  {
    assert (text + [b])[..|text|] == text;
  }

  lemma RecordWorkSnoc(pats: set<Bytes>, text: Bytes, b: Byte)
    ensures RecordWork(pats, text + [b]) == RecordWork(pats, text) + 1 + 2 * |Ending(pats, text + [b])|
  {
    assert (text + [b])[..|text|] == text;
  }

  /** At most three patterns end at any position of the text. */
  ghost predicate FewEndings(pats: set<Bytes>, text: Bytes) {
    forall k :: 0 <= k <= |text| ==> |Ending(pats, text[..k])| <= 3
  }

  lemma FewEndingsPrefix(pats: set<Bytes>, text: Bytes, prefix: Bytes)
    requires FewEndings(pats, text) && prefix <= text
    ensures FewEndings(pats, prefix)
  {
    hide Ending;
    forall k | 0 <= k <= |prefix| ensures |Ending(pats, prefix[..k])| <= 3 {
      assert prefix[..k] == text[..k];
    }
  }

  /** Where at most three patterns end at any position the budget always suffices. */
  lemma {:induction false} FewEndingsFit(pats: set<Bytes>, text: Bytes)
    requires FewEndings(pats, text)
    ensures RecordWork(pats, text) <= 7 * |text|
    ensures |text| <= MAX_TRANSITIONS ==> !OverBudget(pats, text)
  {
    hide Ending;
    if text != [] {
      var front := text[..|text| - 1];
      FewEndingsPrefix(pats, text, front);
      FewEndingsFit(pats, front);
      assert text[..|text|] == text;
    }
  }

  lemma SubsetSize(a: set<Bytes>, b: set<Bytes>)
    requires a <= b
    ensures |a| <= |b|
  {
    if a != {} {
      var x :| x in a;
      SubsetSize(a - {x}, b - {x});
    }
  }

  /** Three patterns, all that one secret gives rise to, never end in more than three ways. */
  lemma ThreePatternsFit(pats: set<Bytes>, text: Bytes)
    requires |pats| <= 3
    ensures FewEndings(pats, text)
    ensures |text| <= MAX_TRANSITIONS ==> !OverBudget(pats, text)
  {
    forall k | 0 <= k <= |text| ensures |Ending(pats, text[..k])| <= 3 {
      SubsetSize(Ending(pats, text[..k]), pats);
    }
    FewEndingsFit(pats, text);
  }

  // ----- the writer -----

  /** Why the writer stopped, and whether while streaming or in Close. */
  datatype Cause =
    | Running
    | DestinationFault(closing: bool)
    | PatternInOutput(b: Byte, closing: bool)
    | OutOfBudget(closing: bool)

  class Writer {
    const dst: Destination
    const matcher: Automaton  // the safety scan uses the same automaton
    const candidateStarts: array<int>
    const candidateLengths: array<int>

    var sourceState: nat
    var sourceOffset: nat
    var sourceTransitions: nat
    var pending: Bytes
    var pendingBase: nat
    var matchWork: nat
    var safetyState: nat
    var safePending: Bytes
    var failed: bool

    ghost const pats: set<Bytes>
    ghost const paths: seq<Bytes>
    ghost var source: Bytes   // every byte accepted
    ghost var emitted: Bytes  // every byte that passed the safety scan
    ghost var cause: Cause
    // The current segment starts after the last Close: at segBase in the source, segOut in the output.
    ghost var segBase: nat
    ghost var segOut: nat

    /** The work done so far was granted. */
    predicate Within()
      reads `matchWork, `sourceTransitions
    {
      matchWork <= MAX_PATTERNS + WORK_PER_BYTE * sourceTransitions
    }

    ghost predicate Shape()
      reads `segOut, `emitted
    {
      && Correct(matcher, paths, pats)
      && candidateStarts != candidateLengths
      && candidateStarts.Length == candidateLengths.Length == matcher.maxPattern
      && segOut <= |emitted|
    }

    /** The source side, with `held` unresolved bytes allowed in the window. */
    ghost predicate SourceOk(held: nat)
      reads `segOut, `emitted, `sourceOffset, `sourceTransitions, `source, `segBase, `pendingBase, `pending, `sourceState, `matchWork
      reads candidateStarts, candidateLengths
      requires Shape()
    {
      && sourceOffset == sourceTransitions == |source|
      && segBase <= pendingBase <= |source| <= pendingBase + held
      && pendingBase <= MAX_TRANSITIONS
      && pending == source[pendingBase..]
      && LongestSuffix(paths, source, sourceState)
      && Ring.Agrees(candidateStarts[..], candidateLengths[..], pats, source, pendingBase)
      && EndingCount(pats, source) + pendingBase <= matchWork <= RecordWork(pats, source) + pendingBase
      && Within()
    }

    /** The output side: all that passed the scan is delivered or held back, and pattern-free. */
    ghost predicate OutputOk()
      reads `segOut, `emitted, `safetyState, `safePending, dst
      requires Shape()
    {
      && LongestSuffix(paths, emitted, safetyState)
      && !ContainsPattern(pats, emitted)
      && dst.received + safePending == emitted
      && |safePending| == Min(matcher.maxPattern - 1, |emitted| - segOut)
    }

    ghost predicate Resolved()
      reads `segOut, `emitted, `source, `segBase, `pendingBase
      requires segOut <= |emitted|
    {
      Settled(pats, source, segBase, pendingBase, emitted[segOut..])
    }

    /** What is known after a failure, whatever the destination took: it was on its way to the
        redaction, and the failure has a reason. */
    ghost predicate FailedOk()
      reads `segOut, `emitted, `cause, `source, `segBase, dst
      requires Shape()
    {
      && dst.received <= emitted
      && !ContainsPattern(pats, emitted)
      && match cause
         case Running => false
         case DestinationFault(closing) => dst.faulted && Destined(emitted[segOut..], closing)
         case OutOfBudget(closing) => OverBudget(pats, source) && Destined(emitted[segOut..], closing)
         case PatternInOutput(b, closing) => Tripped(b) && Destined(emitted[segOut..] + [b], closing)
    }

    /** The text begins the redaction of what was read and, unless the stream was being closed, of
        whatever may follow. */
    ghost predicate Destined(out: Bytes, closing: bool)
      reads `source, `segBase
    {
      if closing then out <= RedactFrom(pats, source, segBase)
      else forall ext: Bytes :: out <= RedactFrom(pats, source + ext, segBase)
    }

    /** A pattern ends at b, and none of its bytes has been delivered (bytes delivered by an
        earlier Close excepted). */
    ghost predicate Tripped(b: Byte)
      reads `segOut, `emitted, dst
    {
      && EndsPattern(b)
      && (|dst.received| == segOut || |dst.received| + matcher.maxPattern <= |emitted| + 1)
    }

    ghost predicate Valid()
      reads this, dst, candidateStarts, candidateLengths
    {
      && Shape()
      && (failed ==> FailedOk())
      && (!failed ==> cause == Running)
      && (!failed && matcher.maxPattern > 0 ==> SourceOk(matcher.maxPattern - 1) && OutputOk() && Resolved())
      && (!failed && matcher.maxPattern == 0 ==> dst.received == emitted == source && segBase == segOut <= |source|)
    }

    static function Min(a: int, b: int): int {
      if a < b then a else b
    }

    /** One more unit than `work` is not granted for the bytes seen so far. */
    predicate Spent(work: nat)
      reads `sourceTransitions
    {
      sourceTransitions > MAX_TRANSITIONS || work + 1 > MAX_PATTERNS + WORK_PER_BYTE * sourceTransitions
    }

    constructor (dst: Destination, matcher: Automaton, ghost paths: seq<Bytes>, ghost pats: set<Bytes>)
      requires Correct(matcher, paths, pats) && dst.received == []
      ensures Valid() && !failed && source == emitted == [] && segBase == segOut == 0
      ensures this.dst == dst && this.matcher == matcher && this.pats == pats
      ensures fresh(candidateStarts) && fresh(candidateLengths)
    {
      hide Correct, LongestSuffix, ContainsPattern, Settled, Ring.Agrees;
      this.dst, this.matcher, this.paths, this.pats := dst, matcher, paths, pats;
      candidateStarts := new int[matcher.maxPattern](_ => 0);
      candidateLengths := new int[matcher.maxPattern](_ => 0);
      sourceState, sourceOffset, sourceTransitions := 0, 0, 0;
      pending, pendingBase, matchWork := [], 0, 0;
      safetyState, safePending, failed := 0, [], false;
      source, emitted, cause, segBase, segOut := [], [], Running, 0, 0;
      new;
      NothingRead(matcher, paths, pats);
      if matcher.maxPattern > 0 {
        Ring.EmptyRing(matcher.maxPattern, pats, candidateStarts[..], candidateLengths[..]);
        SettledStart(pats, source, 0);
      }
    }

    method ConsumeMatchWork() returns (ok: bool)
      modifies `matchWork
      ensures ok ==> matchWork == old(matchWork) + 1 && sourceTransitions <= MAX_TRANSITIONS
      ensures old(matchWork) <= matchWork <= old(matchWork) + 1
      ensures ok <==> !Spent(old(matchWork))
    {
      if matchWork == MAX_WORK {
        return false;
      }
      matchWork := matchWork + 1;
      if sourceTransitions > MAX_TRANSITIONS {
        return false;
      }
      ok := matchWork <= MAX_PATTERNS + sourceTransitions * WORK_PER_BYTE;
    }

    /** Scans what is to go out, byte by byte, up to a byte that completes a pattern. */
    method ScanSafe(input: Bytes, ghost closing: bool) returns (ok: bool)
      requires Shape() && LongestSuffix(paths, emitted, safetyState) && !ContainsPattern(pats, emitted)
      requires dst.received + safePending == emitted
      modifies `safePending, `safetyState, `emitted, `cause
      ensures Shape() && !ContainsPattern(pats, emitted) && dst.received <= emitted
      ensures ok ==> emitted == old(emitted) + input && cause == old(cause)
      ensures ok ==> dst.received + safePending == emitted && LongestSuffix(paths, emitted, safetyState)
      ensures !ok ==> cause.PatternInOutput? && cause.closing == closing && EndsPattern(cause.b)
      ensures !ok ==> old(emitted) <= emitted && emitted + [cause.b] <= old(emitted) + input
    {
      hide Correct, LongestSuffix, ContainsPattern;
      var i := 0;
      while i < |input|
        invariant 0 <= i <= |input|
        invariant emitted == old(emitted) + input[..i]
        invariant dst.received + safePending == emitted
        invariant LongestSuffix(paths, emitted, safetyState) && !ContainsPattern(pats, emitted)
        invariant cause == old(cause)
      {
        var b := input[i];
        safePending := safePending + [b];
        assert input[..i + 1] == input[..i] + [b];
        var next := ScanByte(matcher, emitted, safetyState, b, paths, pats);
        safetyState := next;
        if matcher.nodes[safetyState].output > 0 {
          cause := PatternInOutput(b, closing);
          return false;
        }
        emitted := emitted + [b];
        i := i + 1;
      }
      assert input[..|input|] == input;
      ok := true;
    }

    ghost predicate EndsPattern(b: Byte)
      reads `emitted
    {
      exists p :: p in pats && p != [] && IsSuffix(p, emitted + [b])
    }

    /** Delivers all but the holdback, or everything. */
    method Flush(final: bool, ghost closing: bool) returns (ok: bool)
      requires matcher.maxPattern > 0 && dst.received + safePending == emitted
      modifies `safePending, `cause, dst
      ensures ok ==> dst.received + safePending == emitted && cause == old(cause)
      ensures ok && final ==> safePending == []
      ensures ok && !final ==> |safePending| == Min(matcher.maxPattern - 1, old(|safePending|))
      ensures !ok ==> cause == DestinationFault(closing) && dst.faulted && dst.received <= emitted
    {
      var hold := matcher.maxPattern - 1;
      var flush := |safePending| - hold;
      if final {
        flush := |safePending|;
      }
      if flush <= 0 {
        return true;
      }
      ghost var before := dst.received;
      ok := WriteAll(dst, safePending[..flush]);
      assert before + safePending[..flush] <= emitted;
      if !ok {
        cause := DestinationFault(closing);
        return false;
      }
      assert safePending == safePending[..flush] + safePending[flush..];
      safePending := safePending[flush..];
    }

    method EmitSafe(input: Bytes, final: bool, ghost closing: bool) returns (ok: bool)
      requires Shape() && matcher.maxPattern > 0 && OutputOk()
      modifies `safePending, `safetyState, `emitted, `cause, dst
      ensures Shape() && !ContainsPattern(pats, emitted)
      ensures ok ==> emitted == old(emitted) + input && cause == old(cause)
      ensures ok && !final ==> OutputOk()
      ensures ok ==> LongestSuffix(paths, emitted, safetyState)
      ensures ok && final ==> dst.received == emitted && safePending == []
      ensures !ok ==> old(emitted) <= emitted <= old(emitted) + input && dst.received <= emitted
      ensures !ok ==> match cause
        case DestinationFault(c) => c == closing && dst.faulted && emitted == old(emitted) + input
        case PatternInOutput(b, c) => c == closing && Tripped(b) && emitted + [b] <= old(emitted) + input
        case _ => false
    {
      hide Correct, LongestSuffix, ContainsPattern, EndsPattern;
      ok := ScanSafe(input, closing);
      if ok {
        ok := Flush(final, closing);
      }
    }

    method RecordMatch(start: nat, length: nat, ghost text: Bytes, ghost b: Byte)
      requires Shape() && matcher.maxPattern > 0 && !failed && source == text + [b] && sourceTransitions == |source|
      requires 0 < length <= |source| && start == |source| - length && source[start..] in pats
      requires |source| <= pendingBase + matcher.maxPattern
      requires Ring.AgreesDownTo(candidateStarts[..], candidateLengths[..], pats, text, b, pendingBase, length)
      modifies `matchWork, `failed, `cause, candidateStarts, candidateLengths
      ensures !failed ==> Ring.AgreesDownTo(candidateStarts[..], candidateLengths[..], pats, text, b, pendingBase, length - 1)
      ensures old(matchWork) <= matchWork <= old(matchWork) + 1
      ensures !failed && old(Within()) ==> Within()
      ensures if failed then cause == OutOfBudget(false) && Spent(old(matchWork)) else cause == old(cause)
    {
      hide Correct, Ring.AgreesDownTo;
      if start < pendingBase {
        SkipOld(text, b, length);
        return;
      }
      if start >= pendingBase + candidateLengths.Length {
        assert false;
      }
      var granted := ConsumeMatchWork();
      if !granted {
        failed := true;
        cause := OutOfBudget(false);
        return;
      }
      ghost var starts, lengths := candidateStarts[..], candidateLengths[..];
      var index := start % candidateLengths.Length;
      LookupBefore(starts, lengths, text, b, length);
      if candidateStarts[index] != start || length > candidateLengths[index] {
        candidateStarts[index], candidateLengths[index] := start, length;
      }
      assert candidateStarts[..] == starts[index := start] && candidateLengths[..] == lengths[index := length];
      Ring.RecordHit(starts, lengths, pats, text, b, pendingBase, length, candidateStarts[..], candidateLengths[..]);
    }

    /** A match that starts in already resolved text is not a candidate. */
    lemma SkipOld(text: Bytes, b: Byte, length: nat)
      requires source == text + [b] && 0 < length <= |source| && |source| - length < pendingBase
      requires Ring.AgreesDownTo(candidateStarts[..], candidateLengths[..], pats, text, b, pendingBase, length)
      ensures Ring.AgreesDownTo(candidateStarts[..], candidateLengths[..], pats, text, b, pendingBase, length - 1)
    {
      Ring.RecordSkip(candidateStarts[..], candidateLengths[..], pats, text, b, pendingBase, length, length - 1);
    }

    /** The slot of a new match holds a shorter match with the same start, or a foreign one. */
    lemma LookupBefore(starts: seq<int>, lengths: seq<int>, text: Bytes, b: Byte, length: nat)
      requires source == text + [b] && 0 < length <= |source|
      requires pendingBase <= |source| - length < pendingBase + |starts|
      requires Ring.AgreesDownTo(starts, lengths, pats, text, b, pendingBase, length)
      ensures |starts| == |lengths| > 0
      ensures starts[(|source| - length) % |starts|] != |source| - length || lengths[(|source| - length) % |starts|] < length
    {
      assert Ring.Lookup(starts, lengths, |source| - length) == LongestAt(pats, text, |source| - length);
    }

    /** One state of the output chain: its work is paid, its own match recorded. */
    method RecordState(state: nat, ghost text: Bytes, ghost b: Byte) returns (granted: bool)
      requires Shape() && matcher.maxPattern > 0
      requires source == text + [b] && sourceOffset == sourceTransitions == |source|
      requires |source| <= pendingBase + matcher.maxPattern
      requires 0 < state < |paths| && IsSuffix(paths[state], source)
      requires !failed ==> Ring.AgreesDownTo(candidateStarts[..], candidateLengths[..], pats, text, b, pendingBase, |paths[state]|)
      requires failed ==> cause == OutOfBudget(false) && Spent(matchWork)
      modifies `matchWork, `failed, `cause, candidateStarts, candidateLengths
      ensures |matcher.nodes| == |paths| && matcher.nodes[state].outputLink < |paths|
      ensures !failed ==> Ring.AgreesDownTo(candidateStarts[..], candidateLengths[..], pats, text, b, pendingBase,
                                            |paths[matcher.nodes[state].outputLink]|)
      ensures !failed ==> granted && cause == old(cause) && Within() && matchWork > old(matchWork)
      ensures old(failed) ==> failed
      ensures matchWork <= old(matchWork) + if paths[state] in pats then 2 else 1
      ensures !granted ==> failed && Spent(old(matchWork))
      ensures failed ==> cause == OutOfBudget(false) && Spent(matchWork)
      ensures failed ==> old(failed) || Spent(old(matchWork) + if paths[state] in pats then 1 else 0)
    {
      hide Correct, LongestSuffix, Ring.AgreesDownTo, Longer, Ending;
      ChainStep(matcher, paths, pats, source, state);
      granted := ConsumeMatchWork();
      if !granted {
        failed := true;
        cause := OutOfBudget(false);
        return;
      }
      var length := matcher.nodes[state].terminal;
      if length > 0 {
        RecordMatch(sourceOffset - length, length, text, b);
      }
      if !failed {
        Ring.RecordSkip(candidateStarts[..], candidateLengths[..], pats, text, b, pendingBase,
                        if length > 0 then length - 1 else |paths[state]|, |paths[matcher.nodes[state].outputLink]|);
      }
    }

    /** Walks the output links and records every match that ends at the last byte. */
    method RecordSourceMatches(ghost text: Bytes, ghost b: Byte)
      requires Shape() && matcher.maxPattern > 0 && !failed
      requires source == text + [b] && sourceOffset == sourceTransitions == |source|
      requires pendingBase <= |source| <= pendingBase + matcher.maxPattern
      requires LongestSuffix(paths, source, sourceState)
      requires Ring.Agrees(candidateStarts[..], candidateLengths[..], pats, text, pendingBase)
      requires EndingCount(pats, text) + pendingBase <= matchWork <= RecordWork(pats, text) + pendingBase && Within()
      modifies `matchWork, `failed, `cause, candidateStarts, candidateLengths
      ensures !failed ==> Ring.Agrees(candidateStarts[..], candidateLengths[..], pats, source, pendingBase)
      ensures !failed ==> EndingCount(pats, source) + pendingBase <= matchWork <= RecordWork(pats, source) + pendingBase
      ensures !failed ==> Within() && cause == old(cause)
      ensures failed ==> cause == OutOfBudget(false) && OverBudget(pats, source)
    {
      hide Correct, LongestSuffix, Ring.Agrees, Ring.AgreesDownTo, RecordWork, EndingCount, Longer, Ending;
      ghost var w0, all := matchWork, |Ending(pats, source)|;
      RecordWorkSnoc(pats, text, b);
      EndingCountSnoc(pats, text, b);
      ChainStart(matcher, paths, pats, source, sourceState);
      Ring.RecordStart(candidateStarts[..], candidateLengths[..], pats, text, b, pendingBase, |paths[sourceState]|);
      var state := sourceState;
      while state != 0
        invariant 0 <= state < |paths| == |matcher.nodes| && IsSuffix(paths[state], source)
        invariant !failed ==> Ring.AgreesDownTo(candidateStarts[..], candidateLengths[..], pats, text, b, pendingBase, |paths[state]|)
        invariant state != sourceState && state != 0 ==> paths[state] in pats && paths[state] != []
        invariant matchWork <= w0 + 2 * |Longer(pats, source, |paths[state]|)| + if state == sourceState then 0 else 1
        invariant state == 0 ==> paths[state] == []
        invariant !failed ==> cause == old(cause) && Within() && w0 + |Longer(pats, source, |paths[state]|)| <= matchWork
        invariant failed ==> cause == OutOfBudget(false) && OverBudget(pats, source) && Spent(matchWork)
        decreases |paths[state]|
      {
        ChainStep(matcher, paths, pats, source, state);
        LongerBound(pats, source, |paths[matcher.nodes[state].outputLink]|);
        var granted := RecordState(state, text, b);
        if !granted {
          return;
        }
        state := matcher.nodes[state].outputLink;
      }
      if !failed {
        Ring.RecordEnd(candidateStarts[..], candidateLengths[..], pats, text, b, pendingBase);
        LongerThanNothing(pats, source);
      }
    }

    /** Everything up to `at` is decided: for good while the stream goes on, for the text read
        so far when it ends here. */
    ghost predicate Decided(final: bool, at: nat, out: Bytes)
      reads `source, `segBase
    {
      && RedactFrom(pats, source, segBase) == out + RedactFrom(pats, source, at)
      && (!final ==> Settled(pats, source, segBase, at, out))
    }

    lemma DecideStep(final: bool, at: nat, out: Bytes)
      requires Shape() && matcher.maxPattern > 0 && at < |source| && Decided(final, at, out)
      requires final || at + matcher.maxPattern <= |source|
      ensures Decided(final, PieceEnd(pats, source, at), out + Piece(pats, source, at))
    {
      hide RedactFrom, Piece, PieceEnd, Settled;
      RedactStep(pats, source, RedactFrom(pats, source, segBase), at, out);
      if !final {
        SettledStep(pats, source, segBase, at, out, matcher.maxPattern);
      }
    }

    /** Clears the candidates of a resolved match, one unit of work each. */
    method ClearCandidates(length: nat) returns (ok: bool)
      requires Shape() && 0 < length <= matcher.maxPattern && pendingBase + length <= |source| && sourceTransitions == |source|
      requires |source| <= pendingBase + matcher.maxPattern
      requires Ring.Cleared(candidateStarts[..], candidateLengths[..], pats, source, pendingBase, 1)
      requires matchWork <= RecordWork(pats, source) + pendingBase + 1 && Within()
      modifies `matchWork, candidateStarts, candidateLengths
      ensures ok ==> Ring.Agrees(candidateStarts[..], candidateLengths[..], pats, source, pendingBase + length)
      ensures ok ==> matchWork <= RecordWork(pats, source) + pendingBase + length
      ensures ok ==> matchWork == old(matchWork) + length - 1 && Within()
      ensures !ok ==> OverBudget(pats, source)
    {
      hide Correct, Ring.Agrees, Ring.Cleared, RecordWork, EndingCount;
      var offset := 1;
      while offset < length
        invariant 1 <= offset <= length
        invariant Ring.Cleared(candidateStarts[..], candidateLengths[..], pats, source, pendingBase, offset)
        invariant matchWork <= RecordWork(pats, source) + pendingBase + offset
        invariant matchWork == old(matchWork) + offset - 1 && Within()
      {
        var granted := ConsumeMatchWork();
        if !granted {
          return false;
        }
        ghost var starts, lengths := candidateStarts[..], candidateLengths[..];
        Ring.ClearOne(starts, lengths, pats, source, pendingBase, offset);
        var index := (pendingBase + offset) % candidateLengths.Length;
        candidateStarts[index], candidateLengths[index] := 0, 0;
        assert candidateStarts[..] == starts[index := 0] && candidateLengths[..] == lengths[index := 0];
        offset := offset + 1;
      }
      Ring.WindowMoves(candidateStarts[..], candidateLengths[..], pats, source, pendingBase, length);
      ok := true;
    }

    /** Reads and clears the candidate at the front of the window. */
    method TakeCandidate() returns (length: nat)
      requires Shape() && matcher.maxPattern > 0 && pendingBase < |source|
      requires Ring.Agrees(candidateStarts[..], candidateLengths[..], pats, source, pendingBase)
      modifies candidateStarts, candidateLengths
      ensures length == LongestAt(pats, source, pendingBase)
      ensures Ring.Cleared(candidateStarts[..], candidateLengths[..], pats, source, pendingBase, 1)
    {
      hide Correct, Ring.Cleared;
      ghost var starts, lengths := candidateStarts[..], candidateLengths[..];
      Ring.ClearStart(starts, lengths, pats, source, pendingBase);
      assert Ring.Lookup(starts, lengths, pendingBase) == LongestAt(pats, source, pendingBase);
      var index := pendingBase % candidateLengths.Length;
      length := 0;
      if candidateStarts[index] == pendingBase {
        length := candidateLengths[index];
      }
      candidateStarts[index], candidateLengths[index] := 0, 0;
      assert candidateStarts[..] == starts[index := 0] && candidateLengths[..] == lengths[index := 0];
    }

    /** Sends what stands for the first pending byte: the byte itself, or the marker. */
    method EmitPiece(length: nat, ghost final: bool) returns (ok: bool)
      requires Shape() && matcher.maxPattern > 0 && cause == Running && OutputOk()
      requires pendingBase < |source| && pending == source[pendingBase..] && length == LongestAt(pats, source, pendingBase)
      requires Decided(final, pendingBase, emitted[segOut..]) && (final || pendingBase + matcher.maxPattern <= |source|)
      modifies this`safePending, this`safetyState, this`emitted, this`cause, dst
      ensures Shape()
      ensures ok ==> OutputOk() && cause == Running
      ensures ok ==> Decided(final, pendingBase + (if length == 0 then 1 else length), emitted[segOut..])
      ensures !ok ==> FailedOk() && cause != Running && cause.closing == final
    {
      hide Correct, LongestSuffix, ContainsPattern, RedactFrom, Settled, LongestAt, OverBudget, IsSuffix;
      ghost var out, piece := emitted[segOut..], Piece(pats, source, pendingBase);
      DecideStep(final, pendingBase, out);
      assert pending[..1] == [source[pendingBase]];
      assert (emitted + piece)[segOut..] == out + piece;
      if length == 0 {
        ok := EmitSafe(pending[..1], false, final);
      } else {
        ok := EmitSafe(MARKER, false, final);
      }
      if !ok {
        DecidedIsDestined(final, pendingBase + (if length == 0 then 1 else length), out + piece,
                          emitted[segOut..] + if cause.PatternInOutput? then [cause.b] else []);
      }
    }

    lemma DecidedIsDestined(final: bool, at: nat, out: Bytes, part: Bytes)
      requires Decided(final, at, out) && part <= out
      ensures Destined(part, final)
    {
      hide RedactFrom;
      if !final {
        forall ext: Bytes ensures part <= RedactFrom(pats, source + ext, segBase) {
          assert RedactFrom(pats, source + ext, segBase) == out + RedactFrom(pats, source + ext, at);
        }
      }
    }

    /** The source side while the first pending byte is being resolved: its candidate is taken,
        one unit of work is spent ahead. */
    ghost predicate SourceMid()
      reads `sourceOffset, `sourceTransitions, `source, `segBase, `pendingBase, `pending, `sourceState, `matchWork
      reads candidateStarts, candidateLengths
    {
      && sourceOffset == sourceTransitions == |source| <= MAX_TRANSITIONS
      && segBase <= pendingBase < |source| <= pendingBase + matcher.maxPattern
      && pending == source[pendingBase..]
      && LongestSuffix(paths, source, sourceState)
      && Ring.Cleared(candidateStarts[..], candidateLengths[..], pats, source, pendingBase, 1)
      && EndingCount(pats, source) + pendingBase + 1 <= matchWork <= RecordWork(pats, source) + pendingBase + 1
      && Within()
    }

    method BeginResolve() returns (ok: bool, length: nat)
      requires Shape() && matcher.maxPattern > 0 && SourceOk(matcher.maxPattern) && pendingBase < |source|
      modifies `matchWork, candidateStarts, candidateLengths
      ensures ok ==> SourceMid() && length == LongestAt(pats, source, pendingBase) <= |source| - pendingBase
      ensures !ok ==> OverBudget(pats, source)
    {
      hide Correct, LongestSuffix, Ring.Agrees, Ring.Cleared, RecordWork, EndingCount, LongestAt;
      length := 0;
      ok := ConsumeMatchWork();
      if ok {
        length := TakeCandidate();
        CandidateFits(pats, source, pendingBase);
      }
    }

    method EndResolve(length: nat) returns (ok: bool)
      requires Shape() && matcher.maxPattern > 0 && SourceMid() && 0 < length <= |source| - pendingBase
      modifies `pending, `pendingBase, `matchWork, candidateStarts, candidateLengths
      ensures ok ==> SourceOk(matcher.maxPattern) && pendingBase == old(pendingBase) + length
      ensures !ok ==> OverBudget(pats, source)
    {
      hide Correct, LongestSuffix, Ring.Agrees, Ring.Cleared, RecordWork, EndingCount;
      ok := ClearCandidates(length);
      if ok {
        assert source[pendingBase..][length..] == source[pendingBase + length..];
        pending := pending[length..];
        pendingBase := pendingBase + length;
      }
    }

    lemma GiveUp(final: bool, at: nat)
      requires Shape() && OutputOk() && OverBudget(pats, source) && cause == OutOfBudget(final)
      requires Decided(final, at, emitted[segOut..])
      ensures FailedOk()
    {
      hide Correct, LongestSuffix, ContainsPattern, OverBudget, Decided;
      DecidedIsDestined(final, at, emitted[segOut..], emitted[segOut..]);
    }

    /** Resolves the first pending byte: one byte or one marker goes out. */
    method ResolveOne(final: bool) returns (ok: bool)
      requires Shape() && matcher.maxPattern > 0 && cause == Running
      requires SourceOk(matcher.maxPattern) && OutputOk() && Decided(final, pendingBase, emitted[segOut..])
      requires pendingBase < |source| && (final || pendingBase + matcher.maxPattern <= |source|)
      modifies this`pending, this`pendingBase, this`matchWork, this`safePending, this`safetyState, this`emitted, this`cause
      modifies dst, candidateStarts, candidateLengths
      ensures Shape()
      ensures ok ==> SourceOk(matcher.maxPattern) && OutputOk() && Decided(final, pendingBase, emitted[segOut..])
      ensures ok ==> pendingBase > old(pendingBase) && cause == Running
      ensures !ok ==> FailedOk() && cause != Running && cause.closing == final
    {
      hide Correct, OverBudget, Decided, OutputOk, FailedOk, LongestSuffix, Ring.Agrees, Ring.Cleared, RecordWork, EndingCount, LongestAt;
      var length;
      ok, length := BeginResolve();
      if !ok {
        cause := OutOfBudget(final);
        GiveUp(final, pendingBase);
        return false;
      }
      if length > |pending| {
        assert false;
      }
      ok := EmitPiece(length, final);
      if !ok {
        return false;
      }
      ghost var at := pendingBase + if length == 0 then 1 else length;
      ok := EndResolve(if length == 0 then 1 else length);
      if !ok {
        cause := OutOfBudget(final);
        GiveUp(final, at);
      }
    }

    /** Emits everything that no later byte can change; at the end, everything. */
    method ResolveSource(final: bool) returns (ok: bool)
      requires Shape() && matcher.maxPattern > 0 && cause == Running
      requires SourceOk(matcher.maxPattern) && OutputOk() && Decided(final, pendingBase, emitted[segOut..])
      modifies this`pending, this`pendingBase, this`matchWork, this`safePending, this`safetyState, this`emitted, this`cause
      modifies dst, candidateStarts, candidateLengths
      ensures Shape()
      ensures ok ==> SourceOk(if final then 0 else matcher.maxPattern - 1) && OutputOk() && cause == Running
      ensures ok ==> Decided(final, pendingBase, emitted[segOut..])
      ensures !ok ==> FailedOk() && cause != Running && cause.closing == final
    {
      hide Correct, Decided, OutputOk, FailedOk, LongestSuffix, Ring.Agrees, RecordWork, EndingCount;
      while true
        invariant Shape() && cause == Running
        invariant SourceOk(matcher.maxPattern) && OutputOk() && Decided(final, pendingBase, emitted[segOut..])
        decreases |source| - pendingBase
      {
        if |pending| == 0 {
          return true;
        }
        if !final && sourceOffset < pendingBase + matcher.maxPattern {
          return true;
        }
        ok := ResolveOne(final);
        if !ok {
          return false;
        }
      }
    }

    /** Takes one byte in: the automaton moves on and every match that ends here is recorded. */
    method ReadByte(b: Byte) returns (ok: bool)
      requires Valid() && !failed && matcher.maxPattern > 0
      modifies this`sourceState, this`sourceOffset, this`sourceTransitions, this`pending, this`matchWork
      modifies this`failed, this`source, this`cause, candidateStarts, candidateLengths
      ensures source == old(source) + [b] && Shape() && OutputOk()
      ensures ok ==> SourceOk(matcher.maxPattern) && cause == Running && !failed
      ensures Settled(pats, source, segBase, pendingBase, emitted[segOut..])
      ensures !ok ==> cause == OutOfBudget(false) && OverBudget(pats, source)
    {
      hide Correct, OutputOk, LongestSuffix, Ring.Agrees, RecordWork, EndingCount, OverBudget, Settled, ContainsPattern;
      ghost var text := source;
      assert (source + [b])[pendingBase..] == source[pendingBase..] + [b];
      pending := pending + [b];
      sourceState := ScanByte(matcher, source, sourceState, b, paths, pats);
      sourceOffset := sourceOffset + 1;
      sourceTransitions := sourceTransitions + 1;
      source := source + [b];
      RecordSourceMatches(text, b);
      SettledSnoc(pats, text, b, segBase, pendingBase, emitted[segOut..]);
      ok := !failed;
    }

    method AcceptByte(b: Byte) returns (ok: bool)
      requires Valid() && !failed && matcher.maxPattern > 0
      modifies this`sourceState, this`sourceOffset, this`sourceTransitions, this`pending, this`pendingBase, this`matchWork
      modifies this`safePending, this`safetyState, this`failed, this`source, this`emitted, this`cause
      modifies dst, candidateStarts, candidateLengths
      ensures source == old(source) + [b]
      ensures ok ==> Valid() && !failed
      ensures !ok ==> Shape() && FailedOk() && cause != Running && !cause.closing
    {
      hide Correct, OutputOk, SourceOk, OverBudget, Settled, RedactFrom, FailedOk;
      ok := ReadByte(b);
      SettledNow(pats, source, segBase, pendingBase, emitted[segOut..]);
      if !ok {
        GiveUp(false, pendingBase);
        return false;
      }
      ok := ResolveSource(false);
    }

    method Accept(input: Bytes) returns (ok: bool)
      requires Valid() && !failed && matcher.maxPattern > 0
      modifies this`sourceState, this`sourceOffset, this`sourceTransitions, this`pending, this`pendingBase, this`matchWork
      modifies this`safePending, this`safetyState, this`failed, this`source, this`emitted, this`cause
      modifies dst, candidateStarts, candidateLengths
      ensures ok ==> Valid() && !failed && source == old(source) + input
      ensures !ok ==> Shape() && FailedOk() && cause != Running && !cause.closing
      ensures !ok ==> old(source) <= source <= old(source) + input
    {
      hide Valid, Shape, FailedOk;
      var i := 0;
      assert input[..0] == [];
      while i < |input|
        invariant 0 <= i <= |input|
        invariant Valid() && !failed && source == old(source) + input[..i]
      {
        assert input[..i + 1] == input[..i] + [input[i]];
        ok := AcceptByte(input[i]);
        if !ok {
          return false;
        }
        i := i + 1;
      }
      assert input[..|input|] == input;
      ok := true;
    }

    lemma PassedThrough()
      requires Shape() && matcher.maxPattern == 0 && dst.received <= emitted && cause == DestinationFault(false) && dst.faulted
      requires emitted == source && segBase == segOut
      ensures FailedOk()
    {
      hide Trie, Spells, Linked, RedactFrom;
      forall ext: Bytes ensures emitted[segOut..] <= RedactFrom(pats, source + ext, segBase) {
        forall p | p in pats ensures p in {[]} {
          assert |p| == 0;
        }
        RedactNothing(pats, source + ext, segBase);
        assert source[segBase..] <= (source + ext)[segBase..];
      }
    }

    /** Feeds any input in chunks; any failure latches. */
    method Write(input: Bytes) returns (n: nat, ok: bool)
      requires Valid()
      modifies this`sourceState, this`sourceOffset, this`sourceTransitions, this`pending, this`pendingBase, this`matchWork
      modifies this`safePending, this`safetyState, this`failed, this`source, this`emitted, this`cause
      modifies dst, candidateStarts, candidateLengths
      ensures Valid() && ok == !failed && n == (if ok then |input| else 0)
      ensures old(failed) ==> failed && source == old(source) && dst.received == old(dst.received)
      ensures ok ==> source == old(source) + input
      ensures old(source) <= source <= old(source) + input
      ensures !old(failed) && failed ==> cause != Running && !cause.closing
    {
      hide Correct, SourceOk, OutputOk, Resolved, FailedOk, RedactFrom, ContainsPattern;
      if failed {
        return 0, false;
      }
      if matcher.maxPattern == 0 {
        ok := WriteAll(dst, input);
        source, emitted := source + input, emitted + input;
        if !ok {
          failed, cause := true, DestinationFault(false);
          PassedThrough();
          return 0, false;
        }
        return |input|, true;
      }
      var rest := input;
      while |rest| > 0
        invariant |rest| <= |input| && rest == input[|input| - |rest|..]
        invariant Valid() && !failed && source == old(source) + input[..|input| - |rest|]
      {
        var size := |rest|;
        if size > CHUNK {
          size := CHUNK;
        }
        ghost var done := |input| - |rest|;
        assert input[..done + size] == input[..done] + rest[..size];
        ok := Accept(rest[..size]);
        if !ok {
          failed := true;
          assert input[..done + size] <= input;
          return 0, false;
        }
        rest := rest[size..];
      }
      assert input[..|input|] == input;
      return |input|, true;
    }

    lemma CloseDecides()
      requires Valid() && !failed && matcher.maxPattern > 0
      ensures SourceOk(matcher.maxPattern) && Decided(true, pendingBase, emitted[segOut..])
    {
      hide Correct, OutputOk, LongestSuffix, Ring.Agrees, RedactFrom, Settled;
      SettledNow(pats, source, segBase, pendingBase, emitted[segOut..]);
    }

    /** Flushes both holdbacks. The segment since the last Close has then been delivered as
        exactly its leftmost-longest redaction. */
    method Close() returns (ok: bool)
      requires Valid()
      modifies this`pending, this`pendingBase, this`matchWork, this`safePending, this`safetyState, this`failed
      modifies this`emitted, this`cause, this`segBase, this`segOut, dst, candidateStarts, candidateLengths
      ensures Valid() && ok == !failed
      ensures old(failed) ==> failed && dst.received == old(dst.received)
      ensures !ok ==> segBase == old(segBase) && segOut == old(segOut)
      ensures ok ==> dst.received == emitted && segBase == |source| && segOut == |emitted|
      ensures ok && matcher.maxPattern > 0 ==> Affordable(pats, source)
      ensures ok ==> old(segOut) <= |dst.received| && dst.received[old(segOut)..] == RedactFrom(pats, source, old(segBase))
    {
      hide Correct, OutputOk, Resolved, FailedOk, RedactFrom, ContainsPattern, LongestSuffix, Ring.Agrees, RecordWork, EndingCount;
      if failed {
        return false;
      }
      if matcher.maxPattern != 0 {
        ok := FlushAll();
        if !ok {
          failed := true;
          return false;
        }
      } else {
        PlainSegment();
      }
      segBase, segOut := |source|, |emitted|;
      if matcher.maxPattern != 0 {
        StartSegment();
      }
      ok := true;
    }

    /** Resolves what is pending and delivers what is held back. */
    method FlushAll() returns (ok: bool)
      requires Valid() && !failed && matcher.maxPattern > 0
      modifies this`pending, this`pendingBase, this`matchWork, this`safePending, this`safetyState
      modifies this`emitted, this`cause, dst, candidateStarts, candidateLengths
      ensures Shape()
      ensures ok ==> SourceOk(0) && cause == Running && dst.received == emitted && safePending == []
      ensures ok ==> LongestSuffix(paths, emitted, safetyState) && !ContainsPattern(pats, emitted)
      ensures ok ==> RedactFrom(pats, source, segBase) == emitted[segOut..]
      ensures !ok ==> FailedOk() && cause != Running
    {
      hide Correct, OutputOk, FailedOk, RedactFrom, ContainsPattern, LongestSuffix, Ring.Agrees, RecordWork, EndingCount;
      CloseDecides();
      ok := ResolveSource(true);
      if !ok {
        FailedHasCause();
        return false;
      }
      NothingLeft();
      ok := EmitSafe([], true, true);
      assert emitted + [] == emitted;
      if !ok {
        FlushFailed();
      }
    }

    lemma FailedHasCause()
      requires Shape() && FailedOk()
      ensures cause != Running
    {
      hide Correct, ContainsPattern;
    }

    lemma NothingLeft()
      requires Shape() && Decided(true, pendingBase, emitted[segOut..]) && pendingBase == |source|
      ensures RedactFrom(pats, source, segBase) == emitted[segOut..]
    {
      hide Correct;
      assert RedactFrom(pats, source, pendingBase) == [];
    }

    lemma FlushFailed()
      requires Shape() && cause == DestinationFault(true) && dst.faulted && dst.received <= emitted && !ContainsPattern(pats, emitted)
      requires RedactFrom(pats, source, segBase) == emitted[segOut..]
      ensures FailedOk()
    {
      hide Correct, RedactFrom, ContainsPattern;
    }

    lemma PlainSegment()
      requires Shape() && matcher.maxPattern == 0 && segBase <= |source|
      ensures RedactFrom(pats, source, segBase) == source[segBase..]
    {
      hide Trie, Spells, Linked;
      forall p | p in pats ensures p in {[]} {
        assert |p| == 0;
      }
      RedactNothing(pats, source, segBase);
    }

    lemma StartSegment()
      requires Shape() && matcher.maxPattern > 0 && segOut == |emitted| && segBase == |source| && pendingBase == |source|
      requires LongestSuffix(paths, emitted, safetyState) && !ContainsPattern(pats, emitted)
      requires dst.received == emitted && safePending == []
      ensures Resolved() && OutputOk()
    {
      hide Correct, LongestSuffix, ContainsPattern;
      assert emitted[segOut..] == [];
      SettledStart(pats, source, segBase);
    }

    /** While the stream is open: what was delivered of the current segment is a prefix of its
        redaction whatever follows, and both holdbacks are below one maximum pattern. */
    lemma DeliveredIsPrefix(ext: Bytes)
      requires Valid() && !failed
      ensures segOut <= |dst.received| && dst.received <= emitted
      ensures dst.received[segOut..] <= RedactFrom(pats, source + ext, segBase)
      ensures matcher.maxPattern > 0 ==> |pending| < matcher.maxPattern && |safePending| < matcher.maxPattern
      ensures matcher.maxPattern > 0 ==> |source| < MAX_TRANSITIONS + matcher.maxPattern
    {
      hide Trie, Spells, Linked, LongestSuffix, ContainsPattern, Ring.Agrees, RecordWork, EndingCount, RedactFrom;
      if matcher.maxPattern == 0 {
        forall p | p in pats ensures p in {[]} {
          assert |p| == 0;
        }
        RedactNothing(pats, source + ext, segBase);
        assert source[segBase..] <= (source + ext)[segBase..];
      } else {
        assert RedactFrom(pats, source + ext, segBase) == emitted[segOut..] + RedactFrom(pats, source + ext, pendingBase);
        assert dst.received[segOut..] <= emitted[segOut..];
      }
    }

    /** In every state, failed or not, nothing delivered contains a pattern. */
    lemma OutputIsSafe()
      requires Valid()
      ensures !ContainsPattern(pats, dst.received)
    {
      hide Trie, Spells, Linked, LongestSuffix, ContainsPattern, Ring.Agrees, RecordWork, EndingCount, RedactFrom, Settled, OverBudget;
      if matcher.maxPattern == 0 {
        NeverMatches(pats, emitted);
      }
      ContainsPatternPrefix(pats, dst.received, emitted);
    }
  }

  /** The patterns ending here that are longer than n. */
  ghost function Longer(pats: set<Bytes>, text: Bytes, n: nat): set<Bytes> {
    set p | p in Ending(pats, text) && |p| > n
  }

  lemma CandidateFits(pats: set<Bytes>, text: Bytes, at: nat)
    requires at <= |text|
    ensures LongestAt(pats, text, at) <= |text| - at
  {
  }

  lemma NeverMatches(pats: set<Bytes>, text: Bytes)
    requires Bounded(pats, 0)
    ensures !ContainsPattern(pats, text)
  {
  }

  lemma LongerBound(pats: set<Bytes>, text: Bytes, n: nat)
    ensures |Longer(pats, text, n)| <= |Ending(pats, text)|
  {
    SubsetSize(Longer(pats, text, n), Ending(pats, text));
  }

  lemma LongerThanNothing(pats: set<Bytes>, text: Bytes)
    ensures Longer(pats, text, 0) == Ending(pats, text)
  {
  }

  /** No pattern that ends here is longer than the current label. */
  lemma ChainStart(m: Automaton, paths: seq<Bytes>, pats: set<Bytes>, text: Bytes, state: nat)
    requires Correct(m, paths, pats) && LongestSuffix(paths, text, state)
    ensures |m.nodes| == |paths| && state < |paths| && paths[0] == [] && IsSuffix(paths[state], text)
    ensures forall p :: p in pats && IsSuffix(p, text) ==> |p| <= |paths[state]|
    ensures Longer(pats, text, |paths[state]|) == {}
  {
    hide Linked;
    StateFacts(m, paths, pats, state);
  }

  /** Going from the current label down to a shorter one passes the label itself, if it is a
      pattern, and nothing else. */
  lemma LongerStep(pats: set<Bytes>, text: Bytes, word: Bytes, link: Bytes)
    requires word != [] && IsSuffix(word, text) && |link| < |word|
    requires forall p :: p in pats && IsSuffix(p, text) && |link| < |p| < |word| ==> false
    ensures |Longer(pats, text, |link|)| == |Longer(pats, text, |word|)| + if word in pats then 1 else 0
  {
    forall p | p in pats && IsSuffix(p, text) && |link| < |p| ensures |word| < |p| || p == word {
      if |p| == |word| {
        SuffixesNest(p, word, text);
      }
    }
    assert Longer(pats, text, |link|) == Longer(pats, text, |word|) + if word in pats then {word} else {};
  }

  /** One output link: the label itself if it is a pattern, then nothing down to the link. */
  lemma ChainStep(m: Automaton, paths: seq<Bytes>, pats: set<Bytes>, text: Bytes, state: nat)
    requires Correct(m, paths, pats) && 0 < state < |paths| && IsSuffix(paths[state], text)
    ensures |m.nodes| == |paths|
    ensures m.nodes[state].terminal == if paths[state] in pats then |paths[state]| else 0
    ensures m.nodes[state].outputLink < |paths|
    ensures var word, link := paths[state], paths[m.nodes[state].outputLink];
      && word != [] && |link| < |word| && IsSuffix(link, text)
      && (if m.nodes[state].outputLink == 0 then link == [] else link in pats && link != [])
      && (forall p :: p in pats && IsSuffix(p, text) && |link| < |p| < |word| ==> false)
      && |Longer(pats, text, |link|)| == |Longer(pats, text, |word|)| + if word in pats then 1 else 0
  {
    hide Correct, LongestPatternSuffix, LongestProperSuffix, Longer;
    StateFacts(m, paths, pats, state);
    StateFacts(m, paths, pats, m.nodes[state].outputLink);
    var word, link := paths[state], paths[m.nodes[state].outputLink];
    SuffixTransitive(link, word, text);
    forall p | p in pats && IsSuffix(p, text) && |link| < |p| ensures |word| <= |p| {
      if |p| <= |word| {
        SuffixesNest(p, word, text);
      }
    }
    LongerStep(pats, text, word, link);
  }

  /** One byte of the safety scan: the next state, and whether a pattern ends there. */
  method ScanByte(m: Automaton, ghost text: Bytes, state: nat, b: Byte, ghost paths: seq<Bytes>, ghost pats: set<Bytes>)
    returns (next: nat)
    requires Correct(m, paths, pats) && LongestSuffix(paths, text, state)
    ensures LongestSuffix(paths, text + [b], next) && next < |m.nodes|
    ensures m.nodes[next].output > 0 ==> exists p :: p in pats && p != [] && IsSuffix(p, text + [b])
    ensures m.nodes[next].output == 0 && !ContainsPattern(pats, text) ==> !ContainsPattern(pats, text + [b])
  {
    next := Advance(m, state, b, paths, pats);
    LongestSuffixAfter(m.nodes, paths, text, state, b, next);
    ScanMeaning(m, paths, pats, text + [b], next);
    ContainsPatternSnoc(pats, text, b);
  }

  lemma NothingRead(m: Automaton, paths: seq<Bytes>, pats: set<Bytes>)
    requires Correct(m, paths, pats)
    ensures LongestSuffix(paths, [], 0) && !ContainsPattern(pats, [])
  {
  }

  lemma StateFacts(m: Automaton, paths: seq<Bytes>, pats: set<Bytes>, state: nat)
    requires Correct(m, paths, pats) && state < |paths|
    ensures |m.nodes| == |paths| && Linked(m.nodes[state], paths, pats, state)
    ensures m.nodes[state].terminal == if paths[state] in pats then |paths[state]| else 0
    ensures forall p :: p in pats ==> p in paths
    ensures paths[state] == [] <==> state == 0
  {
    RootIsUnique(m.nodes, paths, state);
  }

  /** `output` of the current state tells whether any pattern ends here. */
  lemma ScanMeaning(m: Automaton, paths: seq<Bytes>, pats: set<Bytes>, text: Bytes, state: nat)
    requires Correct(m, paths, pats) && LongestSuffix(paths, text, state)
    ensures |m.nodes| == |paths|
    ensures m.nodes[state].output > 0 <==> exists p :: p in pats && p != [] && IsSuffix(p, text)
  {
    hide Correct, OutputLinkOk;
    StateFacts(m, paths, pats, state);
    var word, n := paths[state], m.nodes[state].output;
    if n > 0 {
      var p := word[|word| - n..];
      assert IsSuffix(p, word);
      SuffixTransitive(p, word, text);
    }
    forall p | p in pats && p != [] && IsSuffix(p, text) ensures n > 0 {
      SuffixesNest(p, word, text);
    }
  }
}
