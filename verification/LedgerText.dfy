/** The text of the ledger file, and that its length is the one the size bound is computed from. The
    digest under which a replay entry is filed and the date up to its seconds are parameters. */
module LedgerText {
  import opened Strings
  import opened Ledger
  import opened LedgerSize

  // ----- the text -----

  /** The low k bytes of a handle, most significant first, as numbers between commas. */
  function HandleText(h: Handle, k: nat): string {
    if k == 0 then "" else if k == 1 then Number(h % 256) else HandleText(h / 256, k - 1) + "," + Number(h % 256)
  }

  function Signed(n: int): string {
    if n < 0 then "-" + Number(-n) else Number(n)
  }

  function StageText(s: Stage): string {
    match s
    case Reserved => "reserved"
    case Preparing => "preparing"
    case Ready => "ready"
    case Offered => "offered"
    case Granting => "granting"
    case Active => "active"
    case Releasing => "releasing"
  }

  /** A number in so many places, with leading zeros. */
  function Padded(n: nat, places: nat): (t: string)
    ensures |t| == places
  {
    if places == 0 then "" else Padded(n / 10, places - 1) + [(48 + n % 10) as char]
  }

  /** The point and the fraction of a second, without trailing zeros; nothing for a whole second. */
  function FractionText(t: int): string {
    var d := FractionDigits(t % SECOND, 9);
    if d == 0 then "" else "." + Padded(t % SECOND / Power10(9 - d), d)
  }

  /** A UTC time; its date and time of day up to the seconds take 19 characters. */
  function TimeText(date: string, t: int): string {
    date + FractionText(t) + "Z"
  }

  function RecordText(name: string, a: Allocation): string {
    "\"" + name + "\":{\"id\":" + Number(a.id) + ",\"name\":\"" + a.name + "\",\"handle\":[" + HandleText(a.handle, 16)
    + "],\"dev\":" + Number(a.dev) + ",\"ino\":" + Number(a.ino) + ",\"bytes\":" + Number(a.bytes)
    + ",\"inodes\":" + Number(a.inodes) + ",\"state\":\"" + StageText(a.stage) + "\"}"
  }

  function TerminalText(digest: string, t: Terminal, date: string): string {
    "\"" + digest + "\":{\"id\":" + Number(t.id) + ",\"handle\":[" + HandleText(t.handle, 16) + "],\"dev\":" + Number(t.dev)
    + ",\"ino\":" + Number(t.ino) + ",\"completed\":\"" + TimeText(date, t.completed) + "\"}"
  }

  function MountText(m: Mount): string {
    "{\"Dev\":" + Number(m.dev) + ",\"FSType\":" + Signed(m.fsType) + ",\"Fsid0\":" + Signed(m.fsid0)
    + ",\"Fsid1\":" + Signed(m.fsid1) + "}"
  }

  /** Entries between commas. */
  function Listed(entries: seq<string>): string {
    if entries == [] then "" else if |entries| == 1 then entries[0] else entries[0] + "," + Listed(entries[1..])
  }

  function Records(l: Ledger, names: seq<string>): seq<string>
    requires forall n :: n in names ==> n in l.active
  {
    seq(|names|, i requires 0 <= i < |names| => RecordText(names[i], l.active[names[i]]))
  }

  function Terminals(l: Ledger, keys: seq<Key>, digest: Key -> string, date: int -> string): seq<string>
    requires forall k :: k in keys ==> k in l.terminal
  {
    seq(|keys|, i requires 0 <= i < |keys| => TerminalText(digest(keys[i]), l.terminal[keys[i]], date(l.terminal[keys[i]].completed)))
  }

  /** The whole file, with its maps written in some order. */
  function LedgerText(l: Ledger, names: seq<string>, keys: seq<Key>, digest: Key -> string, date: int -> string): string
    requires (forall n :: n in names ==> n in l.active) && forall k :: k in keys ==> k in l.terminal
  {
    "{\"mount\":" + MountText(l.mount) + ",\"checkout_uid\":" + Number(l.checkoutUID) + ",\"checkout_gid\":" + Number(l.checkoutGID)
    + ",\"next\":" + Number(l.next) + ",\"active\":{" + Listed(Records(l, names))
    + "},\"terminal\":{" + Listed(Terminals(l, keys, digest, date)) + "}}"
  }

  // ----- its length -----

  lemma NumberLength(n: nat)
    ensures |Number(n)| == Digits(n)
  {
  }

  lemma {:induction false} HandleLength(h: Handle, k: nat)
    requires k > 0
    ensures |HandleText(h, k)| == HandleDigits(h, k) + k - 1
  {
    hide Number, Digits;
    NumberLength(h % 256);
    if k > 1 {
      HandleLength(h / 256, k - 1);
    } else {
      assert HandleDigits(h / 256, 0) == 0;
    }
  }

  lemma RecordLength(name: string, a: Allocation)
    ensures |RecordText(name, a)| + 1 == RecordSize(name, a)
  {
    hide Number, Digits, HandleText, HandleDigits;
    NumberLength(a.id);
    NumberLength(a.dev);
    NumberLength(a.ino);
    NumberLength(a.bytes);
    NumberLength(a.inodes);
    HandleLength(a.handle, 16);
  }

  lemma TimeLength(date: string, t: int)
    requires |date| == 19
    ensures |TimeText(date, t)| + 2 == TimeSize(t)
  {
    assert Power10(9) == SECOND;
    var _ := FractionExact(t % SECOND, 9);
  }

  lemma TerminalLength(digest: string, t: Terminal, date: string)
    requires |digest| == 64 && |date| == 19
    ensures |TerminalText(digest, t, date)| + 1 == TerminalSize(t)
  {
    hide Number, Digits, HandleText, HandleDigits, TimeSize, TimeText;
    TimeLength(date, t.completed);
    NumberLength(t.id);
    NumberLength(t.dev);
    NumberLength(t.ino);
    HandleLength(t.handle, 16);
  }

  lemma SignedLength(n: int)
    ensures |Signed(n)| == SignedDigits(n)
  {
  }

  ghost function Total(entries: seq<string>): nat {
    if entries == [] then 0 else |entries[0]| + 1 + Total(entries[1..])
  }

  lemma {:induction false} ListedLength(entries: seq<string>)
    ensures |Listed(entries)| + Commas(|entries|) == Total(entries)
  {
    if entries != [] {
      ListedLength(entries[1..]);
    }
  }

  /** No name twice. */
  ghost predicate Distinct<T>(s: seq<T>) {
    forall i, j :: 0 <= i < j < |s| ==> s[i] != s[j]
  }

  ghost function Members<T>(s: seq<T>): set<T> {
    set x | x in s
  }

  lemma MembersTail<T>(s: seq<T>)
    requires s != [] && Distinct(s)
    ensures Distinct(s[1..]) && Members(s[1..]) == Members(s) - {s[0]} && s[0] in Members(s)
  {
    assert s == [s[0]] + s[1..];
    forall x | x in s[1..] ensures x != s[0] {
    }
  }

  lemma {:induction false} MembersCount<T>(s: seq<T>)
    requires Distinct(s)
    ensures |Members(s)| == |s|
  {
    if s != [] {
      MembersTail(s);
      MembersCount(s[1..]);
    } else {
      assert Members(s) == {};
    }
  }

  lemma {:induction false} RecordsTotal(l: Ledger, names: seq<string>)
    requires Distinct(names) && forall n :: n in names ==> n in l.active
    ensures Members(names) <= l.active.Keys && Total(Records(l, names)) == RecordSizes(l.active, Members(names))
  {
    hide RecordText, RecordSize;
    if names == [] {
      assert Members(names) == {};
    } else {
      MembersTail(names);
      RecordsTotal(l, names[1..]);
      assert Records(l, names)[1..] == Records(l, names[1..]);
      RecordSizesTake(l.active, Members(names), names[0]);
      RecordLength(names[0], l.active[names[0]]);
    }
  }

  lemma {:induction false} TerminalsTotal(l: Ledger, keys: seq<Key>, digest: Key -> string, date: int -> string)
    requires Distinct(keys) && forall k :: k in keys ==> k in l.terminal
    requires (forall k :: |digest(k)| == 64) && forall t :: |date(t)| == 19
    ensures Members(keys) <= l.terminal.Keys && Total(Terminals(l, keys, digest, date)) == TerminalSizes(l.terminal, Members(keys))
  {
    hide TerminalText, TerminalSize, TimeSize;
    if keys == [] {
      assert Members(keys) == {};
    } else {
      MembersTail(keys);
      TerminalsTotal(l, keys[1..], digest, date);
      assert Terminals(l, keys, digest, date)[1..] == Terminals(l, keys[1..], digest, date);
      TerminalSizesTake(l.terminal, Members(keys), keys[0]);
      var t := l.terminal[keys[0]];
      TerminalLength(digest(keys[0]), t, date(t.completed));
    }
  }

  /** Whatever the order of its maps, the file is as long as the size the read limit is held against. */
  lemma LengthIsSize(l: Ledger, names: seq<string>, keys: seq<Key>, digest: Key -> string, date: int -> string)
    requires Distinct(names) && (forall n :: n in names <==> n in l.active)
    requires Distinct(keys) && (forall k :: k in keys <==> k in l.terminal)
    requires (forall k :: |digest(k)| == 64) && forall t :: |date(t)| == 19
    ensures |LedgerText(l, names, keys, digest, date)| == EncodedSize(l)
  {
    hide Number, Digits, Signed, SignedDigits, Listed, Records, Terminals, RecordSizes, TerminalSizes, TimeSize, Commas;
    RecordsTotal(l, names);
    TerminalsTotal(l, keys, digest, date);
    assert Members(names) == l.active.Keys && Members(keys) == l.terminal.Keys;
    MembersCount(names);
    MembersCount(keys);
    ListedLength(Records(l, names));
    ListedLength(Terminals(l, keys, digest, date));
    RecordsCount(l, names);
    TerminalsCount(l, keys, digest, date);
    HeaderLength(l);
  }

  lemma RecordsCount(l: Ledger, names: seq<string>)
    requires forall n :: n in names ==> n in l.active
    ensures |Records(l, names)| == |names|
  {
  }

  lemma TerminalsCount(l: Ledger, keys: seq<Key>, digest: Key -> string, date: int -> string)
    requires forall k :: k in keys ==> k in l.terminal
    ensures |Terminals(l, keys, digest, date)| == |keys|
  {
  }

  /** Everything but the entries of the two maps. */
  lemma HeaderLength(l: Ledger)
    ensures |"{\"mount\":" + MountText(l.mount) + ",\"checkout_uid\":" + Number(l.checkoutUID) + ",\"checkout_gid\":"
      + Number(l.checkoutGID) + ",\"next\":" + Number(l.next) + ",\"active\":{" + "},\"terminal\":{" + "}}"| == HeaderSize(l)
  {
    hide Number, Digits, Signed, SignedDigits;
    NumberLength(l.mount.dev);
    SignedLength(l.mount.fsType);
    SignedLength(l.mount.fsid0);
    SignedLength(l.mount.fsid1);
    NumberLength(l.checkoutUID);
    NumberLength(l.checkoutGID);
    NumberLength(l.next);
  }
}
