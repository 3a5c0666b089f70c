/** The length of the ledger file: its JSON text, field by field. Numbers are decimal, a handle is
    an array of sixteen numbers, a completion time has its seconds and what fraction of them it needs. */
module LedgerSize {
  import opened Wrappers
  import opened Strings
  import opened Ledger

  const MAX_LEDGER_BYTES: nat := 0x10_0000

  function Digits(n: nat): (d: nat)
    ensures d >= 1
  {
    |Decimal(n)|
  }

  function SignedDigits(n: int): nat {
    if n < 0 then 1 + Digits(-n) else Digits(n)
  }

  /** The digits of the low k bytes of a handle. */
  function HandleDigits(h: Handle, k: nat): nat {
    if k == 0 then 0 else HandleDigits(h / 256, k - 1) + Digits(h % 256)
  }

  function StageLength(s: Stage): nat {
    match s
    case Reserved => 8
    case Preparing => 9
    case Ready => 5
    case Offered => 7
    case Granting => 8
    case Active => 6
    case Releasing => 9
  }

  /** "name":{"id":,"name":"","handle":[],"dev":,"ino":,"bytes":,"inodes":,"state":""} and a comma. */
  function RecordSize(name: string, a: Allocation): nat {
    3 + |name| + 6 + Digits(a.id) + 10 + |a.name| + 27 + HandleDigits(a.handle, 16) + 7 + Digits(a.dev) + 7 + Digits(a.ino)
    + 9 + Digits(a.bytes) + 10 + Digits(a.inodes) + 11 + StageLength(a.stage) + 2
  }

  const SECOND: nat := 1_000_000_000

  /** The digits a fraction of so many places keeps without its trailing zeros. */
  function FractionDigits(f: nat, places: nat): (d: nat)
    ensures d <= places
  {
    if f == 0 || places == 0 then 0
    else if f % 10 == 0 then FractionDigits(f / 10, places - 1)
    else places
  }

  /** So many digits write the fraction exactly, and the last of them is not a zero. */
  lemma {:induction false} FractionExact(f: nat, places: nat) returns (g: nat)
    requires f < Power10(places)
    ensures var d := FractionDigits(f, places);
      d <= places && f == g * Power10(places - d) && g < Power10(d) && (d == 0 ==> f == 0) && (d > 0 ==> g % 10 != 0)
  {
    g := f;
    if f != 0 && f % 10 == 0 {
      g := FractionExact(f / 10, places - 1);
      var p := Power10(places - 1 - FractionDigits(f, places));
      assert 10 * (g * p) == g * (10 * p);
    }
  }

  /** A quoted UTC time, "0000-00-00T00:00:00Z", with a point and a fraction where there is one. */
  function TimeSize(t: int): nat {
    var d := FractionDigits(t % SECOND, 9);
    22 + if d == 0 then 0 else 1 + d
  }

  lemma TimeBounds(t: int)
    ensures 22 <= TimeSize(t) <= 32
    ensures TimeSize(t) == 22 <==> t % SECOND == 0
  {
    assert Power10(9) == SECOND;
    var _ := FractionExact(t % SECOND, 9);
  }

  /** "key":{"id":,"handle":[],"dev":,"ino":,"completed":} with a 64-digit key, and a comma. */
  function TerminalSize(t: Terminal): nat {
    67 + 6 + Digits(t.id) + 27 + HandleDigits(t.handle, 16) + 7 + Digits(t.dev) + 7 + Digits(t.ino) + 13 + TimeSize(t.completed) + 2
  }

  /** {"mount":{"Dev":,"FSType":,"Fsid0":,"Fsid1":},"checkout_uid":,"checkout_gid":,"next":,
      "active":{},"terminal":{}}. */
  function HeaderSize(l: Ledger): nat {
    16 + Digits(l.mount.dev) + 10 + SignedDigits(l.mount.fsType) + 9 + SignedDigits(l.mount.fsid0) + 9
    + SignedDigits(l.mount.fsid1) + 17 + Digits(l.checkoutUID) + 16 + Digits(l.checkoutGID) + 8 + Digits(l.next) + 27
  }

  // ----- sums over the two maps -----

  ghost function RecordSizes(active: map<string, Allocation>, names: set<string>): nat
    requires names <= active.Keys
  {
    if names == {} then 0
    else
      var n :| n in names;
      RecordSize(n, active[n]) + RecordSizes(active, names - {n})
  }

  ghost function TerminalSizes(terminal: map<Key, Terminal>, keys: set<Key>): nat
    requires keys <= terminal.Keys
  {
    if keys == {} then 0
    else
      var k :| k in keys;
      TerminalSize(terminal[k]) + TerminalSizes(terminal, keys - {k})
  }

  /** The sum does not depend on the order. */
  lemma {:induction false} RecordSizesTake(active: map<string, Allocation>, names: set<string>, n: string)
    requires n in names && names <= active.Keys
    ensures RecordSizes(active, names) == RecordSize(n, active[n]) + RecordSizes(active, names - {n})
    decreases |names|
  {
    hide RecordSize;
    var m :| m in names && RecordSizes(active, names) == RecordSize(m, active[m]) + RecordSizes(active, names - {m});
    if m != n {
      RecordSizesTake(active, names - {m}, n);
      RecordSizesTake(active, names - {n}, m);
      assert names - {m} - {n} == names - {n} - {m};
    }
  }

  lemma {:induction false} TerminalSizesTake(terminal: map<Key, Terminal>, keys: set<Key>, k: Key)
    requires k in keys && keys <= terminal.Keys
    ensures TerminalSizes(terminal, keys) == TerminalSize(terminal[k]) + TerminalSizes(terminal, keys - {k})
    decreases |keys|
  {
    hide TerminalSize;
    var j :| j in keys && TerminalSizes(terminal, keys) == TerminalSize(terminal[j]) + TerminalSizes(terminal, keys - {j});
    if j != k {
      TerminalSizesTake(terminal, keys - {j}, k);
      TerminalSizesTake(terminal, keys - {k}, j);
      assert keys - {j} - {k} == keys - {k} - {j};
    }
  }

  /** The last entry of a map has no comma. */
  function Commas(n: nat): nat {
    if n == 0 then 0 else 1
  }

  ghost function EncodedSize(l: Ledger): int {
    HeaderSize(l) + RecordSizes(l.active, l.active.Keys) - Commas(|l.active|)
    + TerminalSizes(l.terminal, l.terminal.Keys) - Commas(|l.terminal|)
  }

  /** The daemon reads at most this much of its file back. */
  ghost predicate Fits(l: Ledger) {
    EncodedSize(l) <= MAX_LEDGER_BYTES
  }

  method SumRecords(active: map<string, Allocation>) returns (size: nat)
    ensures size == RecordSizes(active, active.Keys)
  {
    hide RecordSize;
    size := 0;
    var todo := active.Keys;
    while todo != {}
      invariant todo <= active.Keys
      invariant size + RecordSizes(active, todo) == RecordSizes(active, active.Keys)
      decreases |todo|
    {
      var n :| n in todo;
      RecordSizesTake(active, todo, n);
      size, todo := size + RecordSize(n, active[n]), todo - {n};
    }
  }

  method SumTerminals(terminal: map<Key, Terminal>) returns (size: nat)
    ensures size == TerminalSizes(terminal, terminal.Keys)
  {
    hide TerminalSize;
    size := 0;
    var todo := terminal.Keys;
    while todo != {}
      invariant todo <= terminal.Keys
      invariant size + TerminalSizes(terminal, todo) == TerminalSizes(terminal, terminal.Keys)
      decreases |todo|
    {
      var k :| k in todo;
      TerminalSizesTake(terminal, todo, k);
      size, todo := size + TerminalSize(terminal[k]), todo - {k};
    }
  }

  /** What marshalling produces, measured. */
  method EncodedLength(l: Ledger) returns (size: int)
    ensures size == EncodedSize(l)
  {
    hide RecordSizes, TerminalSizes, HeaderSize;
    var records := SumRecords(l.active);
    var terminals := SumTerminals(l.terminal);
    size := HeaderSize(l) + records - Commas(|l.active|) + terminals - Commas(|l.terminal|);
  }

  // ----- reading back -----

  /** Reading the ledger back: refused when too long, for another mount or identity, or invalid. */
  ghost function Load(stored: Ledger, mount: Mount, uid: nat, gid: nat): Option<Ledger> {
    if !Fits(stored) then None
    else if stored.mount != mount || stored.checkoutUID != uid || stored.checkoutGID != gid || stored.next == 0 then None
    else if !ValidLedger(stored) then None
    else Some(stored)
  }

  method LoadLedger(stored: Ledger, mount: Mount, uid: nat, gid: nat) returns (r: Option<Ledger>)
    ensures r == Load(stored, mount, uid, gid)
    ensures r.Some? ==> r.value == stored && stored.mount == mount && stored.checkoutUID == uid && stored.checkoutGID == gid
    ensures r.Some? ==> stored.next > 0 && EncodedSize(stored) <= 1048576
    ensures r.Some? ==> forall n :: n in stored.active ==> var a := stored.active[n];
      && n == a.name == WorkspaceName(a.id) && 0 < a.id < stored.next && a.handle != 0 && a.bytes > 0 && a.inodes > 0
      && (a.stage == Reserved <==> a.ino == 0) && a.dev == if a.stage == Reserved then 0 else mount.dev
    ensures r.Some? ==> forall k :: k in stored.terminal ==> var t := stored.terminal[k];
      k == Digest(t.handle) && 0 < t.id < stored.next && t.handle != 0 && t.dev == mount.dev && t.ino != 0 && t.completed != 0
  {
    hide EncodedSize, WorkspaceName;
    var size := EncodedLength(stored);
    if size > MAX_LEDGER_BYTES {
      return None;
    }
    if stored.mount != mount || stored.checkoutUID != uid || stored.checkoutGID != gid || stored.next == 0 {
      return None;
    }
    var ok := CheckLedger(stored);
    r := if ok then Some(stored) else None;
  }

  // ----- when it fits -----

  lemma {:induction false} HandleAtLeast(h: Handle, k: nat)
    ensures HandleDigits(h, k) >= k
  {
    if k > 0 {
      HandleAtLeast(h / 256, k - 1);
    }
  }

  lemma {:induction false} RecordsAtLeast(active: map<string, Allocation>, names: set<string>)
    requires names <= active.Keys
    ensures RecordSizes(active, names) >= 113 * |names|
    decreases |names|
  {
    hide Digits, StageLength;
    if names != {} {
      var n :| n in names;
      RecordSizesTake(active, names, n);
      RecordsAtLeast(active, names - {n});
      HandleAtLeast(active[n].handle, 16);
    }
  }

  /** Every record takes its room: a ledger with 9300 of them is too long whatever they hold. */
  lemma ManyRecordsDoNotFit(l: Ledger)
    requires |l.active| >= 9300
    ensures !Fits(l)
  {
    hide RecordSizes, TerminalSizes, Digits, SignedDigits;
    RecordsAtLeast(l.active, l.active.Keys);
    TerminalsAtLeast(l.terminal, l.terminal.Keys);
  }

  lemma {:induction false} TerminalsAtLeast(terminal: map<Key, Terminal>, keys: set<Key>)
    requires keys <= terminal.Keys
    ensures TerminalSizes(terminal, keys) >= |keys|
    decreases |keys|
  {
    hide Digits;
    if keys != {} {
      var k :| k in keys;
      TerminalSizesTake(terminal, keys, k);
      TerminalsAtLeast(terminal, keys - {k});
    }
  }

  const UINT64: int := 0x1_0000_0000_0000_0000

  lemma DigitsOfUint64(n: nat)
    requires n < UINT64
    ensures Digits(n) <= 20
  {
    hide Decimal;
    assert Power10(5) == 100000;
    assert Power10(10) == 100000 * 100000;
    assert Power10(15) == 100000 * 100000 * 100000;
    DecimalLength(n, 20, Power10(20));
  }

  lemma {:induction false} HandleAtMost(h: Handle, k: nat)
    ensures HandleDigits(h, k) <= 3 * k
  {
    hide Decimal;
    if k > 0 {
      HandleAtMost(h / 256, k - 1);
      assert Power10(3) == 1000;
      DecimalLength(h % 256, 3, 1000);
    }
  }

  /** Numbers as wide as the program's own. */
  ghost predicate Machine(l: Ledger) {
    && l.mount.dev < UINT64 && l.checkoutUID < UINT64 && l.checkoutGID < UINT64 && l.next < UINT64
    && -UINT64 < l.mount.fsType < UINT64 && -UINT64 < l.mount.fsid0 < UINT64 && -UINT64 < l.mount.fsid1 < UINT64
    && (forall n :: n in l.active ==> MachineRecord(n, l.active[n]))
    && (forall k :: k in l.terminal ==> MachineTerminal(l.terminal[k]))
  }

  predicate MachineRecord(name: string, a: Allocation) {
    |name| == |a.name| == 18 && a.id < UINT64 && a.dev < UINT64 && a.ino < UINT64 && a.bytes < UINT64 && a.inodes < UINT64
  }

  predicate MachineTerminal(t: Terminal) {
    t.id < UINT64 && t.dev < UINT64 && t.ino < UINT64
  }

  lemma RecordAtMost(name: string, a: Allocation)
    requires MachineRecord(name, a)
    ensures RecordSize(name, a) <= 290
  {
    hide Digits;
    DigitsOfUint64(a.id);
    DigitsOfUint64(a.dev);
    DigitsOfUint64(a.ino);
    DigitsOfUint64(a.bytes);
    DigitsOfUint64(a.inodes);
    HandleAtMost(a.handle, 16);
  }

  lemma TerminalAtMost(t: Terminal)
    requires MachineTerminal(t)
    ensures TerminalSize(t) <= 270
  {
    hide Digits, TimeSize;
    DigitsOfUint64(t.id);
    DigitsOfUint64(t.dev);
    DigitsOfUint64(t.ino);
    HandleAtMost(t.handle, 16);
    TimeBounds(t.completed);
  }

  lemma {:induction false} RecordsAtMost(active: map<string, Allocation>, names: set<string>)
    requires names <= active.Keys && forall n :: n in names ==> MachineRecord(n, active[n])
    ensures RecordSizes(active, names) <= 290 * |names|
    decreases |names|
  {
    hide RecordSize;
    if names != {} {
      var n :| n in names;
      RecordSizesTake(active, names, n);
      RecordAtMost(n, active[n]);
      RecordsAtMost(active, names - {n});
    }
  }

  lemma {:induction false} TerminalsAtMost(terminal: map<Key, Terminal>, keys: set<Key>)
    requires keys <= terminal.Keys && forall k :: k in keys ==> MachineTerminal(terminal[k])
    ensures TerminalSizes(terminal, keys) <= 270 * |keys|
    decreases |keys|
  {
    hide TerminalSize;
    if keys != {} {
      var k :| k in keys;
      TerminalSizesTake(terminal, keys, k);
      TerminalAtMost(terminal[k]);
      TerminalsAtMost(terminal, keys - {k});
    }
  }

  lemma HeaderAtMost(l: Ledger)
    requires Machine(l)
    ensures HeaderSize(l) <= 300
  {
    hide Digits, MachineRecord, MachineTerminal;
    DigitsOfUint64(l.mount.dev);
    DigitsOfUint64(l.checkoutUID);
    DigitsOfUint64(l.checkoutGID);
    DigitsOfUint64(l.next);
    DigitsOfUint64(if l.mount.fsType < 0 then -l.mount.fsType else l.mount.fsType);
    DigitsOfUint64(if l.mount.fsid0 < 0 then -l.mount.fsid0 else l.mount.fsid0);
    DigitsOfUint64(if l.mount.fsid1 < 0 then -l.mount.fsid1 else l.mount.fsid1);
  }

  /** Up to 2660 records, beside a full replay window, always fit. */
  lemma FewRecordsFit(l: Ledger)
    requires Machine(l) && |l.active| <= 2660 && |l.terminal| <= TERMINAL_MAX_COUNT
    ensures Fits(l)
  {
    hide RecordSizes, TerminalSizes, HeaderSize, MachineRecord, MachineTerminal;
    HeaderAtMost(l);
    RecordsAtMost(l.active, l.active.Keys);
    TerminalsAtMost(l.terminal, l.terminal.Keys);
  }
}
