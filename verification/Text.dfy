/** Byte strings and the reference meaning of redaction: "replace every leftmost-longest
    match of the whole input". Nothing here knows about streaming or automata. */
module Text {

  type Byte = b: int | 0 <= b < 256
  type Bytes = seq<Byte>

  /** The fixed replacement text, "[REDACTED]" in ASCII. */
  const MARKER: Bytes := [91, 82, 69, 68, 65, 67, 84, 69, 68, 93]

  predicate IsSuffix(s: Bytes, t: Bytes) {
    |s| <= |t| && t[|t| - |s|..] == s
  }

  predicate IsProperSuffix(s: Bytes, t: Bytes) {
    |s| < |t| && IsSuffix(s, t)
  }

  /** Two suffixes of one text are themselves nested. */
  lemma SuffixesNest(a: Bytes, b: Bytes, t: Bytes)
    requires IsSuffix(a, t) && IsSuffix(b, t) && |a| <= |b|
    ensures IsSuffix(a, b)
  {
    assert b[|b| - |a|..] == t[|t| - |a|..];
  }

  lemma SuffixTransitive(a: Bytes, b: Bytes, t: Bytes)
    requires IsSuffix(a, b) && IsSuffix(b, t)
    ensures IsSuffix(a, t)
  {
    assert t[|t| - |a|..] == b[|b| - |a|..];
  }

  lemma SuffixSnoc(s: Bytes, t: Bytes, x: Byte, y: Byte)
    ensures IsSuffix(s + [x], t + [y]) <==> x == y && IsSuffix(s, t)
  {
    if |s| <= |t| {
      assert (t + [y])[|t| - |s|..] == t[|t| - |s|..] + [y];
      if t[|t| - |s|..] + [y] == s + [x] {
        assert (t[|t| - |s|..] + [y])[..|s|] == (s + [x])[..|s|];
        assert (t[|t| - |s|..] + [y])[|s|] == (s + [x])[|s|];
      }
    }
  }

  /** A nonempty pattern occupies exactly text[i..i+n]. */
  predicate Matches(pats: set<Bytes>, text: Bytes, i: nat, n: nat) {
    0 < n && i + n <= |text| && text[i..i + n] in pats
  }

  predicate ContainsPattern(pats: set<Bytes>, text: Bytes) {
    exists i, n :: 0 <= i <= |text| && 0 <= n <= |text| && Matches(pats, text, i, n)
  }

  function LongestUpTo(pats: set<Bytes>, text: Bytes, i: nat, n: nat): (r: nat)
    requires i + n <= |text|
    ensures r <= n
    ensures r > 0 ==> Matches(pats, text, i, r)
    ensures forall k :: r < k <= n ==> !Matches(pats, text, i, k)
  {
    if n == 0 then 0
    else if text[i..i + n] in pats then n
    else LongestUpTo(pats, text, i, n - 1)
  }

  /** Length of the longest pattern that starts at i, or 0 when none does. */
  function LongestAt(pats: set<Bytes>, text: Bytes, i: nat): (r: nat)
    ensures r > 0 ==> Matches(pats, text, i, r)
    ensures forall k: nat :: r < k ==> !Matches(pats, text, i, k)
  {
    if i <= |text| then LongestUpTo(pats, text, i, |text| - i) else 0
  }

  /** What stands for the text at `at`: the marker for a match, otherwise the byte itself. */
  function Piece(pats: set<Bytes>, text: Bytes, at: nat): Bytes
    requires at < |text|
  {
    if LongestAt(pats, text, at) == 0 then [text[at]] else MARKER
  }

  function PieceEnd(pats: set<Bytes>, text: Bytes, at: nat): (r: nat)
    requires at < |text|
    ensures at < r <= |text|
  {
    var n := LongestAt(pats, text, at);
    at + if n == 0 then 1 else n
  }

  /** Leftmost-longest, non-overlapping replacement of text[i..]. */
  function RedactFrom(pats: set<Bytes>, text: Bytes, i: nat): Bytes
    decreases |text| - i
  {
    if i >= |text| then []
    else Piece(pats, text, i) + RedactFrom(pats, text, PieceEnd(pats, text, i))
  }

  function Redact(pats: set<Bytes>, text: Bytes): Bytes {
    RedactFrom(pats, text, 0)
  }

  lemma LongestAtUnique(pats: set<Bytes>, text: Bytes, i: nat, r: nat)
    requires r > 0 ==> Matches(pats, text, i, r)
    requires forall k: nat :: r < k ==> !Matches(pats, text, i, k)
    ensures LongestAt(pats, text, i) == r
  {
  }

  lemma LongestAtAgree(pats: set<Bytes>, s: Bytes, i: nat, t: Bytes, j: nat)
    requires forall k: nat :: Matches(pats, s, i, k) <==> Matches(pats, t, j, k)
    ensures LongestAt(pats, s, i) == LongestAt(pats, t, j)
  {
    LongestAtUnique(pats, s, i, LongestAt(pats, t, j));
  }

  lemma SliceOfTail(text: Bytes, base: nat, i: nat, k: nat)
    requires base + i + k <= |text|
    ensures text[base..][i..i + k] == text[base + i..base + i + k]
  {
  }

  lemma LongestAtIsLocal(pats: set<Bytes>, text: Bytes, base: nat, i: nat)
    requires base + i <= |text|
    ensures LongestAt(pats, text, base + i) == LongestAt(pats, text[base..], i)
  {
    forall k: nat ensures Matches(pats, text, base + i, k) <==> Matches(pats, text[base..], i, k) {
      if base + i + k <= |text| {
        SliceOfTail(text, base, i, k);
      }
    }
    LongestAtAgree(pats, text, base + i, text[base..], i);
  }

  lemma PieceIsLocal(pats: set<Bytes>, text: Bytes, base: nat, i: nat)
    requires base + i < |text|
    ensures Piece(pats, text, base + i) == Piece(pats, text[base..], i)
    ensures PieceEnd(pats, text, base + i) == base + PieceEnd(pats, text[base..], i)
  {
    LongestAtIsLocal(pats, text, base, i);
  }

  /** Replacement of a tail looks only at that tail, so each segment is redacted on its own. */
  lemma {:induction false} RedactFromIsLocal(pats: set<Bytes>, text: Bytes, base: nat, i: nat)
    requires base + i <= |text|
    ensures RedactFrom(pats, text, base + i) == RedactFrom(pats, text[base..], i)
    decreases |text| - base - i
  {
    hide Piece, PieceEnd;
    if base + i < |text| {
      PieceIsLocal(pats, text, base, i);
      RedactFromIsLocal(pats, text, base, PieceEnd(pats, text[base..], i));
    }
  }

  ghost predicate Bounded(pats: set<Bytes>, max: nat) {
    forall p :: p in pats ==> |p| <= max
  }

  /** Once a full maximum-pattern window is known, later text cannot change the choice. */
  lemma LongestAtStable(pats: set<Bytes>, text: Bytes, ext: Bytes, i: nat, max: nat)
    requires Bounded(pats, max) && i + max <= |text|
    ensures LongestAt(pats, text + ext, i) == LongestAt(pats, text, i)
  {
    forall k: nat ensures Matches(pats, text, i, k) <==> Matches(pats, text + ext, i, k) {
      if i + k <= |text| {
        assert (text + ext)[i..i + k] == text[i..i + k];
      } else if i + k <= |text + ext| {
        assert |(text + ext)[i..i + k]| == k;
      }
    }
    LongestAtAgree(pats, text, i, text + ext, i);
  }

  /** One more byte can only add the match that ends at it. */
  lemma LongestAtSnoc(pats: set<Bytes>, text: Bytes, b: Byte, i: nat)
    requires i <= |text|
    ensures LongestAt(pats, text + [b], i)
         == if (text + [b])[i..] in pats then |text| + 1 - i else LongestAt(pats, text, i)
  {
    var t := text + [b];
    assert t[i..|t|] == t[i..];
    if t[i..] in pats {
      assert Matches(pats, t, i, |t| - i);
      LongestAtUnique(pats, t, i, |t| - i);
    } else {
      forall k: nat ensures Matches(pats, text, i, k) <==> Matches(pats, t, i, k) {
        if i + k <= |text| {
          assert t[i..i + k] == text[i..i + k];
        }
      }
      LongestAtAgree(pats, text, i, t, i);
    }
  }

  /** Everything before `at` is decided: whatever comes later, the redaction of the text
      from `from` on is `out` followed by the redaction from `at` on. */
  ghost predicate Settled(pats: set<Bytes>, text: Bytes, from: nat, at: nat, out: Bytes) {
    forall ext: Bytes :: RedactFrom(pats, text + ext, from) == out + RedactFrom(pats, text + ext, at)
  }

  lemma SettledNow(pats: set<Bytes>, text: Bytes, from: nat, at: nat, out: Bytes)
    requires Settled(pats, text, from, at, out)
    ensures RedactFrom(pats, text, from) == out + RedactFrom(pats, text, at)
  {
    assert text + [] == text;
  }

  lemma SettledStart(pats: set<Bytes>, text: Bytes, at: nat)
    ensures Settled(pats, text, at, at, [])
  {
  }

  lemma SettledSnoc(pats: set<Bytes>, text: Bytes, b: Byte, from: nat, at: nat, out: Bytes)
    requires Settled(pats, text, from, at, out)
    ensures Settled(pats, text + [b], from, at, out)
  {
    hide RedactFrom;
    forall ext: Bytes
      ensures RedactFrom(pats, text + [b] + ext, from) == out + RedactFrom(pats, text + [b] + ext, at)
    {
      assert text + [b] + ext == text + ([b] + ext);
    }
  }

  lemma Associate(whole: Bytes, a: Bytes, b: Bytes, c: Bytes)
    requires whole == a + (b + c)
    ensures whole == a + b + c
  {
  }

  lemma RedactStep(pats: set<Bytes>, text: Bytes, whole: Bytes, at: nat, out: Bytes)
    requires at < |text| && whole == out + RedactFrom(pats, text, at)
    ensures whole == out + Piece(pats, text, at) + RedactFrom(pats, text, PieceEnd(pats, text, at))
  {
    Associate(whole, out, Piece(pats, text, at), RedactFrom(pats, text, PieceEnd(pats, text, at)));
  }

  lemma PieceStable(pats: set<Bytes>, text: Bytes, ext: Bytes, at: nat, max: nat)
    requires Bounded(pats, max) && 0 < max && at + max <= |text|
    ensures Piece(pats, text + ext, at) == Piece(pats, text, at)
    ensures PieceEnd(pats, text + ext, at) == PieceEnd(pats, text, at)
  {
    LongestAtStable(pats, text, ext, at, max);
  }

  lemma StableStep(pats: set<Bytes>, text: Bytes, ext: Bytes, whole: Bytes, at: nat, out: Bytes, max: nat)
    requires Bounded(pats, max) && 0 < max && at + max <= |text|
    requires whole == out + RedactFrom(pats, text + ext, at)
    ensures whole == out + Piece(pats, text, at) + RedactFrom(pats, text + ext, PieceEnd(pats, text, at))
  {
    PieceStable(pats, text, ext, at, max);
    RedactStep(pats, text + ext, whole, at, out);
  }

  /** Resolving one position whose whole window is known keeps everything settled. */
  lemma SettledStep(pats: set<Bytes>, text: Bytes, from: nat, at: nat, out: Bytes, max: nat)
    requires Bounded(pats, max) && 0 < max && at + max <= |text|
    requires Settled(pats, text, from, at, out)
    ensures Settled(pats, text, from, PieceEnd(pats, text, at), out + Piece(pats, text, at))
  {
    var out', at' := out + Piece(pats, text, at), PieceEnd(pats, text, at);
    forall ext: Bytes
      ensures RedactFrom(pats, text + ext, from) == out' + RedactFrom(pats, text + ext, at')
    {
      StableStep(pats, text, ext, RedactFrom(pats, text + ext, from), at, out, max);
    }
  }

  // ----- what redaction does, match by match -----

  /** No match starts in text[i..at]. */
  ghost predicate NoneStarts(pats: set<Bytes>, text: Bytes, i: nat, at: nat) {
    forall k: nat, n: nat :: i <= k < at ==> !Matches(pats, text, k, n)
  }

  /** What no match starts in stays as it is. */
  lemma {:induction false} RedactClean(pats: set<Bytes>, text: Bytes, i: nat, at: nat)
    requires i <= at <= |text| && NoneStarts(pats, text, i, at)
    ensures RedactFrom(pats, text, i) == text[i..at] + RedactFrom(pats, text, at)
    decreases at - i
  {
    if i < at {
      CleanPiece(pats, text, i);
      hide Piece, PieceEnd, NoneStarts;
      NoneStartsLater(pats, text, i, at);
      RedactClean(pats, text, i + 1, at);
      Associate(RedactFrom(pats, text, i), [text[i]], text[i + 1..at], RedactFrom(pats, text, at));
      assert text[i..at] == [text[i]] + text[i + 1..at];
    }
  }

  lemma NoneStartsLater(pats: set<Bytes>, text: Bytes, i: nat, at: nat)
    requires NoneStarts(pats, text, i, at)
    ensures NoneStarts(pats, text, i + 1, at)
  {
  }

  lemma CleanPiece(pats: set<Bytes>, text: Bytes, i: nat)
    requires i < |text| && NoneStarts(pats, text, i, i + 1)
    ensures Piece(pats, text, i) == [text[i]] && PieceEnd(pats, text, i) == i + 1
  {
    LongestAtUnique(pats, text, i, 0);
  }

  /** The first match, and of those that start there the longest, gives way to the marker, and the
      rest is redacted for itself. */
  lemma LeftmostLongest(pats: set<Bytes>, text: Bytes, i: nat, n: nat)
    requires NoneStarts(pats, text, 0, i) && Matches(pats, text, i, n) && forall m: nat :: n < m ==> !Matches(pats, text, i, m)
    ensures Redact(pats, text) == text[..i] + MARKER + Redact(pats, text[i + n..])
  {
    hide RedactFrom, MARKER;
    RedactClean(pats, text, 0, i);
    LongestAtUnique(pats, text, i, n);
    RedactStep(pats, text, RedactFrom(pats, text, 0), i, text[..i]);
    RedactFromIsLocal(pats, text, i + n, 0);
  }

  /** A text without patterns is left alone. */
  lemma NoPatternNoChange(pats: set<Bytes>, text: Bytes)
    requires !ContainsPattern(pats, text)
    ensures Redact(pats, text) == text
  {
    RedactClean(pats, text, 0, |text|);
    assert text[..|text|] == text;
  }

  /** Without patterns redaction is the identity. */
  lemma RedactNothing(pats: set<Bytes>, text: Bytes, i: nat)
    requires pats <= {[]} && i <= |text|
    ensures RedactFrom(pats, text, i) == text[i..]
  {
    RedactClean(pats, text, i, |text|);
  }

  /** Appending one byte creates a pattern only if some pattern ends at that byte. */
  lemma ContainsPatternSnoc(pats: set<Bytes>, text: Bytes, b: Byte)
    ensures ContainsPattern(pats, text + [b])
        ==> ContainsPattern(pats, text) || exists p :: p in pats && p != [] && IsSuffix(p, text + [b])
  {
    var t := text + [b];
    if ContainsPattern(pats, t) {
      var i, n :| 0 <= i <= |t| && 0 <= n <= |t| && Matches(pats, t, i, n);
      if i + n <= |text| {
        assert t[i..i + n] == text[i..i + n];
        assert Matches(pats, text, i, n);
      } else {
        assert t[i..i + n] == t[i..];
        assert IsSuffix(t[i..], t);
      }
    }
  }

  lemma ContainsPatternPrefix(pats: set<Bytes>, s: Bytes, t: Bytes)
    requires s <= t
    ensures ContainsPattern(pats, s) ==> ContainsPattern(pats, t)
  {
    if ContainsPattern(pats, s) {
      var i, n :| 0 <= i <= |s| && 0 <= n <= |s| && Matches(pats, s, i, n);
      assert s[i..i + n] == t[i..i + n];
      assert Matches(pats, t, i, n);
    }
  }
}
