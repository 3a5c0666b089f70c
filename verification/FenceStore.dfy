/** The agent's fence directory: one file per environment and a manifest of every environment
    ever recorded, so that a lost fence is never mistaken for a first encounter. */
module FenceStore {
  import opened Text
  import opened Utf8
  import opened Strings

  type ID = Bytes

  datatype Fence = Fence(env: ID, highest: int, reconcile: bool)

  /** What a file holds once parsed; `Garbage` is unreadable or malformed. The manifest is written
      in sorted order, so its set of names determines it. */
  datatype Content = FenceFile(fence: Fence) | IndexFile(envs: set<ID>) | Garbage

  type Dir = map<Bytes, Content>

  const INDEX_NAME: Bytes := [46, 102, 101, 110, 99, 101, 45, 105, 110, 100, 101, 120, 46, 106, 115, 111, 110]  // .fence-index.json
  const SUFFIX: Bytes := [46, 106, 115, 111, 110]  // .json
  const MAX_ID_BYTES: nat := 128

  // ----- identifiers and file names -----

  predicate ValidID(id: ID) {
    0 < |id| <= MAX_ID_BYTES && ValidUtf8(id) && 0 !in id
  }

  predicate ValidFence(f: Fence) {
    ValidID(f.env) && f.highest >= 0
  }

  predicate Safe(c: Byte) {
    97 <= c <= 122 || 65 <= c <= 90 || 48 <= c <= 57 || c == 45 || c == 95
  }

  function EncodeByte(c: Byte): Bytes {
    if Safe(c) then [c] else [37, HexDigit(c / 16), HexDigit(c % 16)]
  }

  function EncodeName(id: Bytes): Bytes {
    if id == [] then [] else EncodeName(id[..|id| - 1]) + EncodeByte(id[|id| - 1])
  }

  /** The builder loop. */
  method BuildName(id: Bytes) returns (name: Bytes)
    ensures name == EncodeName(id)
  {
    name := [];
    var i := 0;
    while i < |id|
      invariant 0 <= i <= |id| && name == EncodeName(id[..i])
    {
      assert id[..i + 1][..i] == id[..i];
      if Safe(id[i]) {
        name := name + [id[i]];
      } else {
        name := name + [37, HexDigit(id[i] / 16), HexDigit(id[i] % 16)];
      }
      i := i + 1;
    }
    assert id[..|id|] == id;
  }

  /** Reads an encoded name from its end: the left inverse of the encoding. */
  function DecodeName(s: Bytes): Bytes {
    if s == [] then []
    else if |s| >= 3 && s[|s| - 3] == 37 then
      DecodeName(s[..|s| - 3]) + [16 * HexValue(s[|s| - 2]) + HexValue(s[|s| - 1])]
    else DecodeName(s[..|s| - 1]) + [s[|s| - 1]]
  }

  lemma HexRoundTrip(c: Byte)
    ensures HexDigit(c / 16) != 37 && HexDigit(c % 16) != 37
    ensures 16 * HexValue(HexDigit(c / 16)) + HexValue(HexDigit(c % 16)) == c
  {
    HexDigitValue(c / 16);
    HexDigitValue(c % 16);
  }

  predicate CleanTail(s: Bytes) {
    && (|s| >= 1 ==> s[|s| - 1] != 37)
    && (|s| >= 2 ==> s[|s| - 2] != 37)
  }

  /** An escape mark is never among the last two bytes. */
  lemma {:induction false} EscapesAreWhole(id: Bytes)
    ensures |EncodeName(id)| >= |id|
    ensures CleanTail(EncodeName(id))
  {
    if id != [] {
      EscapesAreWhole(id[..|id| - 1]);
      HexRoundTrip(id[|id| - 1]);
    }
  }

  lemma DecodePlain(s: Bytes, c: Byte)
    requires CleanTail(s)
    ensures DecodeName(s + [c]) == DecodeName(s) + [c]
  {
    hide HexValue;
    var t := s + [c];
    assert t[..|t| - 1] == s && t[|t| - 1] == c;
    assert |t| >= 3 ==> t[|t| - 3] == s[|s| - 2];
  }

  lemma DecodeEscape(s: Bytes, h: Byte, l: Byte)
    ensures DecodeName(s + [37, h, l]) == DecodeName(s) + [16 * HexValue(h) + HexValue(l)]
  {
    hide HexValue;
    var t := s + [37, h, l];
    assert t[..|t| - 3] == s && t[|t| - 3] == 37 && t[|t| - 2] == h && t[|t| - 1] == l;
  }

  lemma DecodeStep(s: Bytes, c: Byte)
    requires CleanTail(s)
    ensures DecodeName(s + EncodeByte(c)) == DecodeName(s) + [c]
  {
    hide DecodeName, HexDigit, HexValue, Safe, CleanTail;
    if Safe(c) {
      DecodePlain(s, c);
    } else {
      HexRoundTrip(c);
      DecodeEscape(s, HexDigit(c / 16), HexDigit(c % 16));
    }
  }

  lemma {:induction false} DecodeEncode(id: Bytes)
    ensures DecodeName(EncodeName(id)) == id
  {
    hide EncodeByte;
    if id != [] {
      DecodeEncode(id[..|id| - 1]);
      EscapesAreWhole(id[..|id| - 1]);
      DecodeStep(EncodeName(id[..|id| - 1]), id[|id| - 1]);
    }
  }

  function FileName(id: ID): Bytes {
    EncodeName(id) + SUFFIX
  }

  predicate IsJson(name: Bytes) {
    |name| >= 5 && name[|name| - 5..] == SUFFIX
  }

  /** Distinct environments never share a file. */
  lemma FilesDistinct(a: ID, b: ID)
    ensures FileName(a) == FileName(b) ==> a == b
  {
    var x, y := FileName(a), FileName(b);
    assert x[..|x| - 5] == EncodeName(a) && y[..|y| - 5] == EncodeName(b);
    DecodeEncode(a);
    DecodeEncode(b);
  }

  lemma {:induction false} FirstByte(id: Bytes)
    requires id != []
    ensures EncodeName(id) != [] && EncodeName(id)[0] != 46
  {
    if |id| > 1 {
      FirstByte(id[..|id| - 1]);
    }
  }

  /** No environment's file is the manifest, and each is seen by a search for "*.json". */
  lemma FileIsNotIndex(id: ID)
    requires id != []
    ensures FileName(id) != INDEX_NAME && IsJson(FileName(id))
  {
    FirstByte(id);
    assert FileName(id)[0] == EncodeName(id)[0];
    var x := FileName(id);
    assert x[|x| - 5..] == SUFFIX;
  }

  // ----- reading -----

  predicate HasFenceFile(d: Dir) {
    exists n :: n in d && IsJson(n) && n != INDEX_NAME
  }

  datatype IndexRead = Trusted(listed: set<ID>) | FailClosed

  function ReadIndex(d: Dir): IndexRead {
    if INDEX_NAME !in d then
      if HasFenceFile(d) then FailClosed else Trusted({})
    else
      match d[INDEX_NAME]
      case IndexFile(envs) => if forall e :: e in envs ==> ValidID(e) then Trusted(envs) else FailClosed
      case _ => FailClosed
  }

  datatype LoadResult = Loaded(fence: Fence, existed: bool) | Corrupt | BadID

  function Load(d: Dir, id: ID): LoadResult {
    if !ValidID(id) then BadID
    else
      match ReadIndex(d)
      case FailClosed => Corrupt
      case Trusted(listed) =>
        var name := FileName(id);
        if name !in d then
          if id in listed then Corrupt else Loaded(Fence(id, 0, false), false)
        else if id !in listed then Corrupt
        else
          match d[name]
          case FenceFile(f) => if ValidFence(f) && f.env == id then Loaded(f, true) else Corrupt
          case _ => Corrupt
  }

  /** What a load may be trusted for: an existing fence is a valid one of this environment, in its own
      file and in the manifest; none exists only where neither file nor manifest knows the environment. */
  lemma LoadIsConfirmed(d: Dir, id: ID)
    ensures Load(d, id).BadID? <==> |id| == 0 || |id| > 128 || !ValidUtf8(id) || 0 in id
    ensures Load(d, id).Loaded? && Load(d, id).existed ==> var f := Load(d, id).fence;
      && FileName(id) in d && d[FileName(id)] == FenceFile(f) && f.env == id && f.highest >= 0
      && INDEX_NAME in d && d[INDEX_NAME].IndexFile? && id in d[INDEX_NAME].envs
    ensures Load(d, id).Loaded? && !Load(d, id).existed ==>
      && Load(d, id).fence == Fence(id, 0, false) && FileName(id) !in d
      && (INDEX_NAME in d ==> d[INDEX_NAME].IndexFile? && id !in d[INDEX_NAME].envs)
      && (INDEX_NAME !in d ==> forall n :: n in d ==> !IsJson(n))
  {
    hide ValidUtf8, FileName;
  }

  // ----- writing -----

  function WithFence(d: Dir, f: Fence): Dir {
    d[FileName(f.env) := FenceFile(f)]
  }

  /** The manifest with one more name; an untrusted manifest is replaced. */
  function WithIndex(d: Dir, id: ID): Dir {
    match ReadIndex(d)
    case Trusted(listed) => if id in listed then d else d[INDEX_NAME := IndexFile(listed + {id})]
    case FailClosed => d[INDEX_NAME := IndexFile({id})]
  }

  class Store {
    var dir: Dir
    ghost var faults: nat  // writes that failed

    /** An atomic write: no effect and failure, effect and success, or effect and failure. */
    method WriteFile(name: Bytes, content: Content) returns (ok: bool)
      modifies this
      ensures dir == old(dir) || dir == old(dir)[name := content]
      ensures ok ==> dir == old(dir)[name := content]
      ensures faults == old(faults) + if ok then 0 else 1
    {
      var renamed: bool := *;
      ok := false;
      if renamed {
        dir := dir[name := content];
        ok := *;
      }
      if !ok {
        faults := faults + 1;
      }
    }

    method HasAnyFenceFile() returns (found: bool)
      ensures found == HasFenceFile(dir)
    {
      found := false;
      var todo := dir.Keys;
      while todo != {} && !found
        invariant todo <= dir.Keys
        invariant found ==> HasFenceFile(dir)
        invariant !found ==> forall n :: n in dir && n !in todo ==> !(IsJson(n) && n != INDEX_NAME)
        decreases |todo|
      {
        var n :| n in todo;
        todo := todo - {n};
        found := IsJson(n) && n != INDEX_NAME;
      }
    }

    method LoadIndex() returns (r: IndexRead)
      ensures r == ReadIndex(dir)
    {
      if INDEX_NAME !in dir {
        var any := HasAnyFenceFile();
        return if any then FailClosed else Trusted({});
      }
      if !dir[INDEX_NAME].IndexFile? {
        return FailClosed;
      }
      var listed, todo := {}, dir[INDEX_NAME].envs;
      while todo != {}
        invariant listed !! todo && listed + todo == dir[INDEX_NAME].envs
        invariant forall e :: e in listed ==> ValidID(e)
        decreases |todo|
      {
        var e :| e in todo;
        if !ValidID(e) {
          return FailClosed;
        }
        listed, todo := listed + {e}, todo - {e};
      }
      r := Trusted(listed);
    }

    method LoadFence(id: ID) returns (r: LoadResult)
      ensures r == Load(dir, id)
    {
      if !ValidID(id) {
        return BadID;
      }
      var index := LoadIndex();
      if index.FailClosed? {
        return Corrupt;
      }
      var name := BuildName(id);
      name := name + SUFFIX;
      if name !in dir {
        return if id in index.listed then Corrupt else Loaded(Fence(id, 0, false), false);
      }
      if id !in index.listed || !dir[name].FenceFile? {
        return Corrupt;
      }
      var f := dir[name].fence;
      r := if ValidFence(f) && f.env == id then Loaded(f, true) else Corrupt;
    }

    method AddToIndex(id: ID) returns (ok: bool)
      modifies this
      ensures dir == old(dir) || dir == WithIndex(old(dir), id)
      ensures ok ==> dir == WithIndex(old(dir), id)
      ensures old(faults) <= faults && (faults == old(faults) ==> ok)
    {
      var index := LoadIndex();
      var listed := if index.Trusted? then index.listed else {};
      if id in listed {
        return true;
      }
      assert {} + {id} == {id};
      ok := WriteFile(INDEX_NAME, IndexFile(listed + {id}));
    }

    /** The fence first, then the manifest: a crash or failure in between leaves a file that is
        not listed, never a listed name without its file. */
    method Save(f: Fence) returns (ok: bool)
      modifies this
      ensures dir in {old(dir), WithFence(old(dir), f), WithIndex(WithFence(old(dir), f), f.env)}
      ensures ok ==> ValidFence(f) && dir == WithIndex(WithFence(old(dir), f), f.env)
      ensures !ValidFence(f) ==> dir == old(dir)
      ensures old(faults) <= faults && (faults == old(faults) ==> (ok <==> ValidFence(f)))
    {
      if !ValidFence(f) {
        return false;
      }
      var name := BuildName(f.env);
      ok := WriteFile(name + SUFFIX, FenceFile(f));
      if ok {
        ok := AddToIndex(f.env);
      }
    }
  }

  /** A completed save is what the next load returns, and changes no other environment's load. */
  lemma LoadAfterSave(d: Dir, f: Fence, id: ID)
    requires ValidFence(f) && ReadIndex(d).Trusted?
    ensures var d' := WithIndex(WithFence(d, f), f.env);
      Load(d', f.env) == Loaded(f, true) && (id != f.env ==> Load(d', id) == Load(d, id))
  {
    hide ValidUtf8, EncodeName, Safe;
    hide FileName;
    FileIsNotIndex(f.env);
    var d1 := WithFence(d, f);
    IndexSurvives(d, f);
    if id != f.env && ValidID(id) {
      FileIsNotIndex(id);
      FilesDistinct(id, f.env);
      if INDEX_NAME !in d {
        NoFileWithoutIndex(d, id);
      }
    }
  }

  lemma IndexSurvives(d: Dir, f: Fence)
    requires ValidFence(f) && ReadIndex(d).Trusted?
    ensures var d' := WithIndex(WithFence(d, f), f.env);
      INDEX_NAME in d' && ReadIndex(d') == Trusted(ReadIndex(d).listed + {f.env})
  {
    hide ValidUtf8, EncodeName, FileName;
    FileIsNotIndex(f.env);
    var d1 := WithFence(d, f);
    assert FileName(f.env) in d1;
    assert HasFenceFile(d1);
    var l := ReadIndex(d).listed;
    assert f.env in l ==> l + {f.env} == l;
    assert {} + {f.env} == {f.env};
  }

  lemma NoFileWithoutIndex(d: Dir, id: ID)
    requires ReadIndex(d).Trusted? && ValidID(id) && INDEX_NAME !in d
    ensures FileName(id) !in d
  {
    hide ValidUtf8, EncodeName, FileName;
    FileIsNotIndex(id);
  }
}
