/** Envelope encryption and key rotation over an ideal authenticated cipher: a ciphertext opens only
    under the key and authenticated data it was sealed with, and every sealing is a new ciphertext. */
module Vault {
  import opened Wrappers
  import opened Text
  import opened Utf8
  import opened Envelope

  type Key = Bytes

  datatype Entry = Entry(key: Key, aad: Bytes, plaintext: Bytes)

  /** `sealings` remembers every ciphertext ever made; `reserved` and `wraps` count, per
      key-encryption key, reservations taken and wrappings made. */
  datatype State = State(sealings: map<Bytes, Entry>, reserved: multiset<Bytes>, wraps: multiset<Bytes>)

  function Open(s: State, key: Key, ciphertext: Bytes, aad: Bytes): Option<Bytes> {
    if ciphertext in s.sealings && s.sealings[ciphertext].key == key && s.sealings[ciphertext].aad == aad then
      Some(s.sealings[ciphertext].plaintext)
    else None
  }

  /** A ciphertext the cipher may draw: new, and 28 bytes longer than what it hides. */
  predicate Fresh(s: State, ciphertext: Bytes, length: nat) {
    ciphertext !in s.sealings && |ciphertext| == length + 28
  }

  function Seal(s: State, key: Key, plaintext: Bytes, aad: Bytes, ciphertext: Bytes): State {
    s.(sealings := s.sealings[ciphertext := Entry(key, aad, plaintext)])
  }

  /** What a key provider answers; a missing key is an error. */
  datatype Provider = Provider(activeID: Bytes, keys: map<Bytes, Key>)

  /** Whether the reservation was granted. */
  type Grant = bool

  predicate Usable(p: Provider, id: Bytes) {
    id in p.keys && |p.keys[id]| == 32
  }

  /** Random choices of one encryption, and whether drawing the key, sealing the value and sealing
      the key succeed. */
  datatype Draw = Draw(dek: Key, value: Bytes, wrap: Bytes, drawn: bool, sealed: bool, wrapped: bool)

  predicate Possible(s: State, plaintext: Bytes, d: Draw) {
    |d.dek| == 32 && Fresh(s, d.value, |plaintext|) && Fresh(s, d.wrap, 32) && d.value != d.wrap
  }

  /** The reservation comes first and stays consumed, whatever fails after it. */
  function Encrypt(s: State, p: Provider, grant: Grant, scope: Scope, plaintext: Bytes, d: Draw): (r: (State, Option<Sealed>))
    requires Possible(s, plaintext, d)
  {
    if |plaintext| > MAX_PLAINTEXT || !ValidScope(scope) then (s, None)
    else if !Usable(p, p.activeID) || !ValidKeyID(p.activeID) then (s, None)
    else if !grant then (s, None)
    else
      var id, kek := p.activeID, p.keys[p.activeID];
      var s1 := s.(reserved := s.reserved + multiset{id});
      if !d.drawn || !d.sealed then (s1, None)
      else
        var s2 := Seal(s1, d.dek, plaintext, ValueAAD(scope), d.value);
        if !d.wrapped then (s2, None)
        else
          var s3 := Seal(s2, kek, d.dek, WrapAAD(id, scope), d.wrap);
          (s3.(wraps := s3.wraps + multiset{id}), Some(Sealed(SUITE, AAD_VERSION, id, d.value, d.wrap)))
  }

  function Decrypt(s: State, p: Provider, scope: Scope, e: Sealed): Option<Bytes> {
    if !ValidScope(scope) || !ValidEnvelope(e) then None
    else if !Usable(p, e.kekID) then None
    else
      match Open(s, p.keys[e.kekID], e.wrappedDEK, WrapAAD(e.kekID, scope))
      case None => None
      case Some(dek) =>
        if |dek| != 32 then None
        else
          match Open(s, dek, e.ciphertext, ValueAAD(scope))
          case None => None
          case Some(plaintext) => if |plaintext| > MAX_PLAINTEXT then None else Some(plaintext)
  }

  /** `wrap` is the ciphertext the cipher draws, should it come to that and should it succeed. */
  function Rewrap(s: State, p: Provider, grant: Grant, scope: Scope, e: Sealed, wrap: Bytes, sealed: bool): (State, Option<Sealed>)
    requires Fresh(s, wrap, 32)
  {
    if !ValidScope(scope) || !ValidEnvelope(e) then (s, None)
    else if !Usable(p, e.kekID) then (s, None)
    else
      match Open(s, p.keys[e.kekID], e.wrappedDEK, WrapAAD(e.kekID, scope))
      case None => (s, None)
      case Some(dek) =>
        var id := p.activeID;
        if |dek| != 32 || !Usable(p, id) || !ValidKeyID(id) || id == e.kekID then (s, None)
        else if !grant then (s, None)
        else
          var s1 := s.(reserved := s.reserved + multiset{id});
          if !sealed then (s1, None)
          else
            var s2 := Seal(s1, p.keys[id], dek, WrapAAD(id, scope), wrap);
            (s2.(wraps := s2.wraps + multiset{id}), Some(e.(kekID := id, wrappedDEK := wrap)))
  }

  // ----- what an envelope protects -----

  /** The envelope hides one plaintext, bound to one scope; `ring` is the one key each ID ever has. */
  ghost predicate Protects(s: State, ring: map<Bytes, Key>, e: Sealed, scope: Scope, plaintext: Bytes, dek: Key) {
    && ValidEnvelope(e) && ValidScope(scope) && |dek| == 32 && |plaintext| <= MAX_PLAINTEXT
    && e.ciphertext in s.sealings && s.sealings[e.ciphertext] == Entry(dek, ValueAAD(scope), plaintext)
    && e.kekID in ring
    && e.wrappedDEK in s.sealings && s.sealings[e.wrappedDEK] == Entry(ring[e.kekID], WrapAAD(e.kekID, scope), dek)
  }

  /** A provider answers with the ring's keys, though perhaps not with all of them. */
  predicate Agrees(p: Provider, ring: map<Bytes, Key>) {
    forall id :: id in p.keys ==> id in ring && ring[id] == p.keys[id]
  }

  lemma EncryptProtects(s: State, ring: map<Bytes, Key>, p: Provider, grant: Grant, scope: Scope, plaintext: Bytes, d: Draw)
    requires Possible(s, plaintext, d) && Agrees(p, ring)
    ensures var (s', r) := Encrypt(s, p, grant, scope, plaintext, d);
      r.Some? ==> Protects(s', ring, r.value, scope, plaintext, d.dek)
  {
    hide ValueAAD, WrapAAD, ValidScope;
  }

  /** Decryption under the envelope's own scope, with its key at hand, gives the plaintext back, and
      fails otherwise. */
  lemma DecryptExactly(s: State, ring: map<Bytes, Key>, p: Provider, e: Sealed, scope: Scope, plaintext: Bytes, dek: Key, other: Scope)
    requires Protects(s, ring, e, scope, plaintext, dek) && Agrees(p, ring)
    ensures Decrypt(s, p, other, e) == if other == scope && Usable(p, e.kekID) then Some(plaintext) else None
  {
    hide ValueAAD, WrapAAD, ValidScope;
    if ValidScope(other) {
      WrapAADInjective(e.kekID, scope, e.kekID, other);
    }
  }

  /** A rewrap succeeds only under the envelope's own scope; it keeps the value's ciphertext and
      protects the same plaintext under the new key. */
  lemma RewrapProtects(s: State, ring: map<Bytes, Key>, p: Provider, grant: Grant, e: Sealed, scope: Scope, plaintext: Bytes,
                       dek: Key, other: Scope, wrap: Bytes, sealed: bool)
    requires Protects(s, ring, e, scope, plaintext, dek) && Agrees(p, ring) && Fresh(s, wrap, 32)
    ensures var (s', r) := Rewrap(s, p, grant, other, e, wrap, sealed);
      && Protects(s', ring, e, scope, plaintext, dek)
      && (r.Some? ==> other == scope && r.value.ciphertext == e.ciphertext && r.value.kekID == p.activeID != e.kekID)
      && (r.Some? ==> Protects(s', ring, r.value, scope, plaintext, dek))
  {
    hide ValueAAD, WrapAAD, ValidScope;
    if ValidScope(other) {
      WrapAADInjective(e.kekID, scope, e.kekID, other);
    }
  }

  // ----- exactly when they succeed, and what they leave behind -----

  /** The provider's active key can be used for wrapping. */
  predicate CanWrap(p: Provider) {
    p.activeID in p.keys && |p.keys[p.activeID]| == 32 && ValidKeyID(p.activeID)
  }

  /** An encryption succeeds exactly for a plaintext of bounded length and a valid scope, with a usable
      active key, a granted reservation and a cipher that does not fail; without the grant nothing is
      touched. */
  lemma EncryptExactly(s: State, p: Provider, grant: Grant, scope: Scope, plaintext: Bytes, d: Draw)
    requires Possible(s, plaintext, d)
    ensures var (s', r) := Encrypt(s, p, grant, scope, plaintext, d);
      var asked := |plaintext| <= MAX_PLAINTEXT && ValidScope(scope) && CanWrap(p);
      && (r.Some? <==> asked && grant && d.drawn && d.sealed && d.wrapped)
      && (!(asked && grant) ==> s' == s)
      && (asked && grant ==> s'.reserved == s.reserved + multiset{p.activeID})
      && (r.Some? ==> r.value.kekID == p.activeID && s'.wraps == s.wraps + multiset{p.activeID})
      && (r.None? ==> s'.wraps == s.wraps)
  {
    hide ValueAAD, WrapAAD, ValidScope, ValidKeyID;
  }

  /** A rewrap of a protected envelope succeeds exactly under its own scope, away from its own key,
      with both keys usable, a granted reservation and a cipher that does not fail; without the grant
      nothing is touched. */
  lemma RewrapExactly(s: State, ring: map<Bytes, Key>, p: Provider, grant: Grant, e: Sealed, scope: Scope, plaintext: Bytes,
                      dek: Key, other: Scope, wrap: Bytes, sealed: bool)
    requires Protects(s, ring, e, scope, plaintext, dek) && Agrees(p, ring) && Fresh(s, wrap, 32)
    ensures var (s', r) := Rewrap(s, p, grant, other, e, wrap, sealed);
      var asked := other == scope && Usable(p, e.kekID) && CanWrap(p) && p.activeID != e.kekID;
      && (r.Some? <==> asked && grant && sealed)
      && (!(asked && grant) ==> s' == s)
      && (asked && grant ==> s'.reserved == s.reserved + multiset{p.activeID})
      && (r.Some? ==> s'.wraps == s.wraps + multiset{p.activeID})
      && (r.None? ==> s'.wraps == s.wraps && s'.sealings == s.sealings)
  {
    hide ValueAAD, WrapAAD, ValidScope;
    if ValidScope(other) {
      WrapAADInjective(e.kekID, scope, e.kekID, other);
    }
  }

  /** What is encrypted and what is rewrapped can be decrypted by the same provider at once. */
  lemma UsableAtOnce(s: State, ring: map<Bytes, Key>, p: Provider, grant: Grant, scope: Scope, plaintext: Bytes, d: Draw)
    requires Possible(s, plaintext, d) && Agrees(p, ring)
    ensures var (s', r) := Encrypt(s, p, grant, scope, plaintext, d);
      r.Some? ==> Decrypt(s', p, scope, r.value) == Some(plaintext)
  {
    hide Encrypt, Decrypt, Protects, ValidScope, ValidKeyID;
    EncryptExactly(s, p, grant, scope, plaintext, d);
    EncryptProtects(s, ring, p, grant, scope, plaintext, d);
    var (s', r) := Encrypt(s, p, grant, scope, plaintext, d);
    if r.Some? {
      DecryptExactly(s', ring, p, r.value, scope, plaintext, d.dek, scope);
    }
  }

  // ----- rotation -----

  /** One rotation attempt, by whatever provider and under whatever scope. */
  datatype Turn = Turn(provider: Provider, grant: Grant, scope: Scope, wrap: Bytes, sealed: bool)

  ghost predicate PossibleTurns(s: State, ring: map<Bytes, Key>, e: Sealed, turns: seq<Turn>)
    decreases |turns|
  {
    turns == [] || (
      && Fresh(s, turns[0].wrap, 32) && Agrees(turns[0].provider, ring)
      && var (s', r) := Rewrap(s, turns[0].provider, turns[0].grant, turns[0].scope, e, turns[0].wrap, turns[0].sealed);
         PossibleTurns(s', ring, if r.Some? then r.value else e, turns[1..]))
  }

  /** A failed rewrap leaves the stored envelope as it was. */
  ghost function Rotate(s: State, ring: map<Bytes, Key>, e: Sealed, turns: seq<Turn>): (State, Sealed)
    requires PossibleTurns(s, ring, e, turns)
    decreases |turns|
  {
    if turns == [] then (s, e)
    else
      var (s', r) := Rewrap(s, turns[0].provider, turns[0].grant, turns[0].scope, e, turns[0].wrap, turns[0].sealed);
      Rotate(s', ring, if r.Some? then r.value else e, turns[1..])
  }

  lemma {:induction false} RotateProtects(s: State, ring: map<Bytes, Key>, e: Sealed, turns: seq<Turn>, scope: Scope,
                                          plaintext: Bytes, dek: Key)
    requires PossibleTurns(s, ring, e, turns) && Protects(s, ring, e, scope, plaintext, dek)
    ensures var (s', e') := Rotate(s, ring, e, turns);
      Protects(s', ring, e', scope, plaintext, dek) && e'.ciphertext == e.ciphertext
    decreases |turns|
  {
    hide Protects, Rewrap;
    if turns != [] {
      var t := turns[0];
      RewrapProtects(s, ring, t.provider, t.grant, e, scope, plaintext, dek, t.scope, t.wrap, t.sealed);
      var (s', r) := Rewrap(s, t.provider, t.grant, t.scope, e, t.wrap, t.sealed);
      RotateProtects(s', ring, if r.Some? then r.value else e, turns[1..], scope, plaintext, dek);
    }
  }

  /** One encryption and any number of rotation attempts: the result decrypts to the original
      plaintext under the original scope and under no other. */
  lemma RotationKeepsMeaning(s: State, ring: map<Bytes, Key>, p: Provider, grant: Grant, scope: Scope, plaintext: Bytes, d: Draw,
                             turns: seq<Turn>, reader: Provider, other: Scope)
    requires Possible(s, plaintext, d) && Agrees(p, ring) && Agrees(reader, ring)
    requires Encrypt(s, p, grant, scope, plaintext, d).1.Some?
    requires var (s1, r) := Encrypt(s, p, grant, scope, plaintext, d); PossibleTurns(s1, ring, r.value, turns)
    ensures var (s1, r) := Encrypt(s, p, grant, scope, plaintext, d);
      var (s2, e) := Rotate(s1, ring, r.value, turns);
      Decrypt(s2, reader, other, e) == if other == scope && Usable(reader, e.kekID) then Some(plaintext) else None
  {
    hide Protects, Rewrap, Encrypt, Decrypt;
    EncryptProtects(s, ring, p, grant, scope, plaintext, d);
    var (s1, r) := Encrypt(s, p, grant, scope, plaintext, d);
    RotateProtects(s1, ring, r.value, turns, scope, plaintext, d.dek);
    var (s2, e) := Rotate(s1, ring, r.value, turns);
    DecryptExactly(s2, ring, reader, e, scope, plaintext, d.dek, other);
  }

  // ----- any use of the vault -----

  /** One use: an encryption, or a rewrap of whatever envelope is presented. */
  datatype Use =
    | Encryption(p: Provider, grant: Grant, scope: Scope, plaintext: Bytes, d: Draw)
    | Rewrapping(p: Provider, grant: Grant, scope: Scope, e: Sealed, wrap: Bytes, sealed: bool)

  predicate CanUse(s: State, u: Use) {
    match u
    case Encryption(_, _, _, plaintext, d) => Possible(s, plaintext, d)
    case Rewrapping(_, _, _, _, wrap, _) => Fresh(s, wrap, 32)
  }

  function After(s: State, u: Use): State
    requires CanUse(s, u)
  {
    match u
    case Encryption(p, grant, scope, plaintext, d) => Encrypt(s, p, grant, scope, plaintext, d).0
    case Rewrapping(p, grant, scope, e, wrap, sealed) => Rewrap(s, p, grant, scope, e, wrap, sealed).0
  }

  predicate CanUseAll(s: State, uses: seq<Use>)
    decreases |uses|
  {
    uses == [] || (CanUse(s, uses[0]) && CanUseAll(After(s, uses[0]), uses[1..]))
  }

  function AfterAll(s: State, uses: seq<Use>): State
    requires CanUseAll(s, uses)
    decreases |uses|
  {
    if uses == [] then s else AfterAll(After(s, uses[0]), uses[1..])
  }

  const EMPTY: State := State(map[], multiset{}, multiset{})

  // ----- authenticity -----

  /** The plaintext was once given to an encryption under the scope. */
  ghost predicate WasEncrypted(uses: seq<Use>, scope: Scope, plaintext: Bytes) {
    exists i :: 0 <= i < |uses| && uses[i].Encryption? && uses[i].scope == scope && uses[i].plaintext == plaintext
  }

  ghost predicate IsValue(entry: Entry, known: set<(Scope, Bytes)>) {
    exists scope :: ValidScope(scope) && entry.aad == ValueAAD(scope) && (scope, entry.plaintext) in known
  }

  ghost predicate IsWrap(entry: Entry) {
    exists id: Bytes, scope :: ValidScope(scope) && |id| < UINT32 && entry.aad == WrapAAD(id, scope)
  }

  /** Every sealing is that of a known secret under its scope, or that of a wrapped key. */
  ghost predicate Honest(s: State, known: set<(Scope, Bytes)>) {
    forall c :: c in s.sealings ==> IsValue(s.sealings[c], known) || IsWrap(s.sealings[c])
  }

  ghost function Learned(known: set<(Scope, Bytes)>, u: Use): set<(Scope, Bytes)> {
    if u.Encryption? then known + {(u.scope, u.plaintext)} else known
  }

  lemma SealHonest(s: State, known: set<(Scope, Bytes)>, key: Key, plaintext: Bytes, aad: Bytes, c: Bytes)
    requires Honest(s, known) && (IsValue(Entry(key, aad, plaintext), known) || IsWrap(Entry(key, aad, plaintext)))
    ensures Honest(Seal(s, key, plaintext, aad, c), known)
  {
    hide IsValue, IsWrap;
  }

  lemma MoreHonest(s: State, known: set<(Scope, Bytes)>, more: set<(Scope, Bytes)>)
    requires Honest(s, known) && known <= more
    ensures Honest(s, more)
  {
    hide IsWrap, ValueAAD, ValidScope;
    forall c | c in s.sealings ensures IsValue(s.sealings[c], more) || IsWrap(s.sealings[c]) {
      assert IsValue(s.sealings[c], known) ==> IsValue(s.sealings[c], more);
    }
  }

  lemma ValueIsValue(key: Key, scope: Scope, plaintext: Bytes, known: set<(Scope, Bytes)>)
    requires ValidScope(scope) && (scope, plaintext) in known
    ensures IsValue(Entry(key, ValueAAD(scope), plaintext), known)
  {
    hide ValueAAD, ValidScope;
  }

  lemma WrapIsWrap(key: Key, id: Bytes, scope: Scope, dek: Bytes)
    requires ValidScope(scope) && ValidKeyID(id)
    ensures IsWrap(Entry(key, WrapAAD(id, scope), dek))
  {
    hide WrapAAD, ValidScope;
  }

  lemma EncryptHonest(s: State, known: set<(Scope, Bytes)>, p: Provider, grant: Grant, scope: Scope, plaintext: Bytes, d: Draw)
    requires Honest(s, known) && Possible(s, plaintext, d)
    ensures Honest(Encrypt(s, p, grant, scope, plaintext, d).0, known + {(scope, plaintext)})
  {
    hide ValueAAD, WrapAAD, ValidScope, IsValue, IsWrap, ValidKeyID, Seal;
    var more := known + {(scope, plaintext)};
    MoreHonest(s, known, more);
    if ValidScope(scope) && Usable(p, p.activeID) && ValidKeyID(p.activeID) {
      var id, kek := p.activeID, p.keys[p.activeID];
      var s1 := s.(reserved := s.reserved + multiset{id});
      SameSealings(s, s1, more);
      ValueIsValue(d.dek, scope, plaintext, more);
      WrapIsWrap(kek, id, scope, d.dek);
      SealHonest(s1, more, d.dek, plaintext, ValueAAD(scope), d.value);
      var s2 := Seal(s1, d.dek, plaintext, ValueAAD(scope), d.value);
      SealHonest(s2, more, kek, d.dek, WrapAAD(id, scope), d.wrap);
      var s3 := Seal(s2, kek, d.dek, WrapAAD(id, scope), d.wrap);
      SameSealings(s3, s3.(wraps := s3.wraps + multiset{id}), more);
    }
  }

  lemma SameSealings(s: State, s': State, known: set<(Scope, Bytes)>)
    requires Honest(s, known) && s'.sealings == s.sealings
    ensures Honest(s', known)
  {
    hide IsValue, IsWrap;
  }

  lemma RewrapHonest(s: State, known: set<(Scope, Bytes)>, p: Provider, grant: Grant, scope: Scope, e: Sealed, wrap: Bytes, sealed: bool)
    requires Honest(s, known) && Fresh(s, wrap, 32)
    ensures Honest(Rewrap(s, p, grant, scope, e, wrap, sealed).0, known)
  {
    hide ValueAAD, WrapAAD, ValidScope, IsValue, IsWrap, ValidKeyID, ValidEnvelope, Seal;
    var s' := Rewrap(s, p, grant, scope, e, wrap, sealed).0;
    if s'.sealings == s.sealings {
      SameSealings(s, s', known);
    } else {
      var id, dek := p.activeID, Open(s, p.keys[e.kekID], e.wrappedDEK, WrapAAD(e.kekID, scope)).value;
      var s1 := s.(reserved := s.reserved + multiset{id});
      SameSealings(s, s1, known);
      WrapIsWrap(p.keys[id], id, scope, dek);
      SealHonest(s1, known, p.keys[id], dek, WrapAAD(id, scope), wrap);
      SameSealings(Seal(s1, p.keys[id], dek, WrapAAD(id, scope), wrap), s', known);
    }
  }

  ghost function Secrets(uses: seq<Use>): set<(Scope, Bytes)> {
    if uses == [] then {} else Learned(Secrets(uses[1..]), uses[0])
  }

  lemma {:induction false} UsesHonest(s: State, known: set<(Scope, Bytes)>, uses: seq<Use>)
    requires Honest(s, known) && CanUseAll(s, uses)
    ensures Honest(AfterAll(s, uses), known + Secrets(uses))
    decreases |uses|
  {
    hide Honest, Encrypt, Rewrap, CanUse;
    if uses == [] {
      assert known + {} == known;
    } else {
      var u := uses[0];
      UseHonest(s, known, u);
      UsesHonest(After(s, u), Learned(known, u), uses[1..]);
      assert Learned(known, u) + Secrets(uses[1..]) == known + Secrets(uses);
    }
  }

  lemma UseHonest(s: State, known: set<(Scope, Bytes)>, u: Use)
    requires Honest(s, known) && CanUse(s, u)
    ensures Honest(After(s, u), Learned(known, u))
  {
    hide Honest, Encrypt, Rewrap;
    match u {
      case Encryption(p, grant, scope, plaintext, d) => EncryptHonest(s, known, p, grant, scope, plaintext, d);
      case Rewrapping(p, grant, scope, e, wrap, sealed) => RewrapHonest(s, known, p, grant, scope, e, wrap, sealed);
    }
  }

  lemma {:induction false} SecretsWereEncrypted(uses: seq<Use>, scope: Scope, plaintext: Bytes)
    requires (scope, plaintext) in Secrets(uses)
    ensures WasEncrypted(uses, scope, plaintext)
  {
    if uses[0].Encryption? && uses[0].scope == scope && uses[0].plaintext == plaintext {
    } else {
      SecretsWereEncrypted(uses[1..], scope, plaintext);
      var i :| 0 <= i < |uses[1..]| && uses[1..][i].Encryption? && uses[1..][i].scope == scope && uses[1..][i].plaintext == plaintext;
      assert uses[i + 1] == uses[1..][i];
    }
  }

  /** Whatever envelope is presented, forged, mixed or stolen, and whatever keys the reader has: if it
      decrypts under a scope after any uses of the vault, the plaintext was once encrypted under
      exactly that scope. */
  lemma Authentic(uses: seq<Use>, p: Provider, scope: Scope, e: Sealed)
    requires CanUseAll(EMPTY, uses) && Decrypt(AfterAll(EMPTY, uses), p, scope, e).Some?
    ensures WasEncrypted(uses, scope, Decrypt(AfterAll(EMPTY, uses), p, scope, e).value)
  {
    hide ValueAAD, WrapAAD, ValidScope, CanUseAll, AfterAll, Secrets, WasEncrypted;
    UsesHonest(EMPTY, {}, uses);
    var s, known := AfterAll(EMPTY, uses), {} + Secrets(uses);
    var entry := s.sealings[e.ciphertext];
    NotAWrap(entry, scope);
    var other :| ValidScope(other) && entry.aad == ValueAAD(other) && (other, entry.plaintext) in known;
    ValueAADInjective(scope, other);
    SecretsWereEncrypted(uses, scope, entry.plaintext);
  }

  lemma NotAWrap(entry: Entry, scope: Scope)
    requires ValidScope(scope) && entry.aad == ValueAAD(scope)
    ensures !IsWrap(entry)
  {
    hide ValueAAD, WrapAAD, ValidScope;
    forall id: Bytes, other | ValidScope(other) && |id| < UINT32 ensures entry.aad != WrapAAD(id, other) {
      AADDisjoint(scope, id, other);
    }
  }

  // ----- reservations -----

  /** Wrappings and reservations of one use: at most one of each, and never a wrapping without its
      reservation; a failure after the reservation leaves it consumed. */
  ghost predicate Consumes(s: State, s': State, id: Bytes, made: bool) {
    && (made ==> s'.wraps == s.wraps + multiset{id} && s'.reserved == s.reserved + multiset{id})
    && (!made ==> s'.wraps == s.wraps && (s'.reserved == s.reserved || s'.reserved == s.reserved + multiset{id}))
  }

  lemma EncryptConsumes(s: State, p: Provider, grant: Grant, scope: Scope, plaintext: Bytes, d: Draw)
    requires Possible(s, plaintext, d)
    ensures var (s', r) := Encrypt(s, p, grant, scope, plaintext, d); Consumes(s, s', p.activeID, r.Some?)
    ensures grant && Usable(p, p.activeID) && ValidKeyID(p.activeID) && ValidScope(scope) && |plaintext| <= MAX_PLAINTEXT ==>
      Encrypt(s, p, grant, scope, plaintext, d).0.reserved == s.reserved + multiset{p.activeID}
  {
    hide ValueAAD, WrapAAD, ValidScope;
  }

  lemma RewrapConsumes(s: State, p: Provider, grant: Grant, scope: Scope, e: Sealed, wrap: Bytes, sealed: bool)
    requires Fresh(s, wrap, 32)
    ensures var (s', r) := Rewrap(s, p, grant, scope, e, wrap, sealed); Consumes(s, s', p.activeID, r.Some?)
  {
    hide ValueAAD, WrapAAD, ValidScope;
  }

  /** The reservations a failure left without a wrapping. */
  ghost predicate Accounted(s: State, wasted: multiset<Bytes>) {
    s.reserved == s.wraps + wasted
  }

  /** Through any uses every reservation is accounted for: it went with a wrapping or was wasted by a
      failure, so no key wraps more often than it was reserved. */
  lemma {:induction false} WrapsAreReserved(s: State, wasted: multiset<Bytes>, uses: seq<Use>) returns (all: multiset<Bytes>)
    requires Accounted(s, wasted) && CanUseAll(s, uses)
    ensures Accounted(AfterAll(s, uses), all) && wasted <= all && |all| <= |wasted| + |uses|
    ensures AfterAll(s, uses).wraps <= AfterAll(s, uses).reserved
    decreases |uses|
  {
    hide Encrypt, Rewrap;
    if uses == [] {
      all := wasted;
    } else {
      var u := uses[0];
      var s' := After(s, u);
      match u {
        case Encryption(p, grant, scope, plaintext, d) => EncryptConsumes(s, p, grant, scope, plaintext, d);
        case Rewrapping(p, grant, scope, e, wrap, sealed) => RewrapConsumes(s, p, grant, scope, e, wrap, sealed);
      }
      var more := if s'.wraps == s.wraps && s'.reserved != s.reserved then wasted + multiset{u.p.activeID} else wasted;
      assert Accounted(s', more);
      all := WrapsAreReserved(s', more, uses[1..]);
    }
  }
}
