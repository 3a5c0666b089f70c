/** The ring of candidate matches, as values: slot s % M holds the longest match seen so far
    that starts at s, for the window of M starts beginning at the first unresolved byte. */
module Ring {
  import opened Text
  import opened Matcher

  function Lookup(starts: seq<int>, lengths: seq<int>, s: nat): int
    requires |starts| == |lengths| > 0
  {
    if starts[s % |starts|] == s then lengths[s % |starts|] else 0
  }

  /** The ring agrees with the map "start -> longest match" on its whole window. */
  ghost predicate Agrees(starts: seq<int>, lengths: seq<int>, pats: set<Bytes>, text: Bytes, base: nat) {
    && |starts| == |lengths| > 0
    && forall s: nat :: base <= s < base + |starts| ==> Lookup(starts, lengths, s) == LongestAt(pats, text, s)
  }

  /** Agreement while the matches that end at a new byte b are being recorded, longest first:
      those longer than n are in, the others are not yet. */
  ghost predicate AgreesDownTo(starts: seq<int>, lengths: seq<int>, pats: set<Bytes>, text: Bytes, b: Byte, base: nat, n: nat) {
    && |starts| == |lengths| > 0
    && forall s: nat :: base <= s < base + |starts| ==>
         Lookup(starts, lengths, s) == LongestAt(pats, if |text| + 1 - s > n then text + [b] else text, s)
  }

  lemma SmallMultiple(m: int, k: int)
    requires 0 < m && -m < m * k < m
    ensures k == 0
  {
  }

  /** A quotient and a remainder in range are the quotient and the remainder. */
  lemma DivModUnique(m: nat, x: nat, q: int, r: int)
    requires 0 < m && 0 <= r < m && x == m * q + r
    ensures x % m == r
  {
    var d := x / m - q;
    assert x == m * (x / m) + x % m;
    assert m * d == m * (x / m) - m * q;
    SmallMultiple(m, d);
  }

  /** Distinct starts of one window never share a slot. */
  lemma SlotsDistinct(m: nat, s: nat, t: nat)
    requires 0 < m && s <= t < s + m && s % m == t % m
    ensures s == t
  {
    var d := t / m - s / m;
    assert s == m * (s / m) + s % m && t == m * (t / m) + t % m;
    assert m * d == m * (t / m) - m * (s / m);
    SmallMultiple(m, d);
  }

  lemma NextLap(m: nat, s: nat)
    requires 0 < m <= s
    ensures (s - m) % m == s % m
  {
    var q := s / m - 1;
    assert s == m * (s / m) + s % m;
    assert m * q == m * (s / m) - m;
    DivModUnique(m, s - m, q, s % m);
  }

  lemma BeyondText(pats: set<Bytes>, text: Bytes, s: nat)
    requires |text| <= s
    ensures LongestAt(pats, text, s) == 0
  {
  }

  /** Only patterns that end at the new byte change a candidate. */
  lemma RecordStart(starts: seq<int>, lengths: seq<int>, pats: set<Bytes>, text: Bytes, b: Byte, base: nat, n: nat)
    requires Agrees(starts, lengths, pats, text, base)
    requires forall p :: p in pats && IsSuffix(p, text + [b]) ==> |p| <= n
    ensures AgreesDownTo(starts, lengths, pats, text, b, base, n)
  {
    forall s: nat | base <= s < base + |starts| && |text| + 1 - s > n
      ensures LongestAt(pats, text + [b], s) == LongestAt(pats, text, s)
    {
      LongestAtSnoc(pats, text, b, s);
      assert IsSuffix((text + [b])[s..], text + [b]);
    }
  }

  /** No pattern has a length strictly between n' and n, and n itself is not one or is out of
      the window: nothing to record. */
  lemma RecordSkip(starts: seq<int>, lengths: seq<int>, pats: set<Bytes>, text: Bytes, b: Byte, base: nat, n: nat, n': nat)
    requires AgreesDownTo(starts, lengths, pats, text, b, base, n) && n' <= n
    requires forall p :: p in pats && IsSuffix(p, text + [b]) && n' < |p| <= n ==> |text| + 1 - |p| < base
    ensures AgreesDownTo(starts, lengths, pats, text, b, base, n')
  {
    forall s: nat | base <= s < base + |starts| && n' < |text| + 1 - s <= n
      ensures LongestAt(pats, text + [b], s) == LongestAt(pats, text, s)
    {
      LongestAtSnoc(pats, text, b, s);
      assert IsSuffix((text + [b])[s..], text + [b]);
    }
  }

  /** Recording the match of length n. */
  lemma RecordHit(starts: seq<int>, lengths: seq<int>, pats: set<Bytes>, text: Bytes, b: Byte, base: nat, n: nat,
                  starts': seq<int>, lengths': seq<int>)
    requires AgreesDownTo(starts, lengths, pats, text, b, base, n)
    requires 0 < n <= |text| + 1 && (text + [b])[|text| + 1 - n..] in pats
    requires base <= |text| + 1 - n < base + |starts|
    requires starts' == starts[(|text| + 1 - n) % |starts| := |text| + 1 - n]
    requires lengths' == lengths[(|text| + 1 - n) % |starts| := n]
    ensures AgreesDownTo(starts', lengths', pats, text, b, base, n - 1)
  {
    var m, s0 := |starts|, |text| + 1 - n;
    forall s: nat | base <= s < base + m
      ensures Lookup(starts', lengths', s) == LongestAt(pats, if |text| + 1 - s > n - 1 then text + [b] else text, s)
    {
      if s == s0 {
        LongestAtSnoc(pats, text, b, s);
      } else {
        if s % m == s0 % m {
          SlotsDistinct(m, if s < s0 then s else s0, if s < s0 then s0 else s);
        }
        assert Lookup(starts', lengths', s) == Lookup(starts, lengths, s);
      }
    }
  }

  lemma RecordEnd(starts: seq<int>, lengths: seq<int>, pats: set<Bytes>, text: Bytes, b: Byte, base: nat)
    requires AgreesDownTo(starts, lengths, pats, text, b, base, 0)
    ensures Agrees(starts, lengths, pats, text + [b], base)
  {
    forall s: nat | base <= s < base + |starts|
      ensures Lookup(starts, lengths, s) == LongestAt(pats, text + [b], s)
    {
      if |text| + 1 - s <= 0 {
        BeyondText(pats, text, s);
        BeyondText(pats, text + [b], s);
      }
    }
  }

  /** The slots of base .. base + n - 1 are cleared, the rest of the window is intact. */
  ghost predicate Cleared(starts: seq<int>, lengths: seq<int>, pats: set<Bytes>, text: Bytes, base: nat, n: nat) {
    && |starts| == |lengths| > 0
    && n <= |starts|
    && (forall s: nat :: base <= s < base + n ==> lengths[s % |starts|] == 0)
    && (forall s: nat :: base + n <= s < base + |starts| ==> Lookup(starts, lengths, s) == LongestAt(pats, text, s))
  }

  lemma ClearStart(starts: seq<int>, lengths: seq<int>, pats: set<Bytes>, text: Bytes, base: nat)
    requires Agrees(starts, lengths, pats, text, base)
    ensures Cleared(starts[base % |starts| := 0], lengths[base % |starts| := 0], pats, text, base, 1)
  {
    ClearOne(starts, lengths, pats, text, base, 0);
  }

  lemma ClearOne(starts: seq<int>, lengths: seq<int>, pats: set<Bytes>, text: Bytes, base: nat, n: nat)
    requires Cleared(starts, lengths, pats, text, base, n) && n < |starts|
    ensures var i := (base + n) % |starts|;
            Cleared(starts[i := 0], lengths[i := 0], pats, text, base, n + 1)
  {
    var m, s0 := |starts|, base + n;
    var i := s0 % m;
    var starts', lengths' := starts[i := 0], lengths[i := 0];
    forall s: nat | base + n + 1 <= s < base + m
      ensures Lookup(starts', lengths', s) == LongestAt(pats, text, s)
    {
      if s % m == i {
        SlotsDistinct(m, s0, s);
      }
    }
  }

  /** Once the decided starts are cleared the window may move past them. */
  lemma WindowMoves(starts: seq<int>, lengths: seq<int>, pats: set<Bytes>, text: Bytes, base: nat, n: nat)
    requires Cleared(starts, lengths, pats, text, base, n) && |text| <= base + |starts|
    ensures Agrees(starts, lengths, pats, text, base + n)
  {
    var m := |starts|;
    forall s: nat | base + n <= s < base + n + m ensures Lookup(starts, lengths, s) == LongestAt(pats, text, s) {
      if base + m <= s {
        NextLap(m, s);
        assert lengths[(s - m) % m] == 0;
        BeyondText(pats, text, s);
      }
    }
  }

  lemma EmptyRing(m: nat, pats: set<Bytes>, starts: seq<int>, lengths: seq<int>)
    requires |starts| == |lengths| == m > 0
    requires forall i :: 0 <= i < m ==> lengths[i] == 0
    ensures Agrees(starts, lengths, pats, [], 0)
  {
    forall s: nat | 0 <= s < m ensures Lookup(starts, lengths, s) == LongestAt(pats, [], s) {
      BeyondText(pats, [], s);
    }
  }
}
