/** The quota ledger as a value: records, the daemon's own validity check, and the six kinds of
    edit the service ever makes. */
module Ledger {
  import opened Strings

  const MAX_ID: nat := 0xFFFF_FFFF
  const TERMINAL_MAX_AGE: nat := 600_000_000_000  // ten minutes, in nanoseconds
  const TERMINAL_MAX_COUNT: nat := 1024

  /** A 16-byte capability as a number; 0 is the all-zero handle. */
  type Handle = nat

  datatype Stage = Reserved | Preparing | Ready | Offered | Granting | Active | Releasing

  datatype Allocation = Allocation(
    id: nat, name: string, handle: Handle, dev: nat, ino: nat, bytes: nat, inodes: nat, stage: Stage)

  /** Completion is in nanoseconds since the zero time. */
  datatype Terminal = Terminal(id: nat, handle: Handle, dev: nat, ino: nat, completed: int)

  /** SHA-256 of a handle, taken as injective. */
  datatype Key = Digest(handle: Handle)

  datatype Mount = Mount(dev: nat, fsType: int, fsid0: int, fsid1: int)

  datatype Ledger = Ledger(
    mount: Mount, checkoutUID: nat, checkoutGID: nat, next: nat,
    active: map<string, Allocation>, terminal: map<Key, Terminal>)

  // ----- workspace names -----

  function Hex(n: nat, digits: nat): string {
    if digits == 0 then "" else Hex(n / 16, digits - 1) + [HexDigit(n % 16) as char]
  }

  function Power16(n: nat): nat {
    if n == 0 then 1 else 16 * Power16(n - 1)
  }

  lemma {:induction false} HexInjective(a: nat, b: nat, digits: nat)
    requires a < Power16(digits) && b < Power16(digits)
    ensures Hex(a, digits) == Hex(b, digits) ==> a == b
  {
    hide HexDigit, HexValue;
    if digits > 0 && Hex(a, digits) == Hex(b, digits) {
      HexDigitValue(a % 16);
      HexDigitValue(b % 16);
      var x, y := Hex(a / 16, digits - 1), Hex(b / 16, digits - 1);
      HexLength(a / 16, digits - 1);
      HexLength(b / 16, digits - 1);
      assert Hex(a, digits)[..digits - 1] == x && Hex(b, digits)[..digits - 1] == y;
      assert Hex(a, digits)[digits - 1] == HexDigit(a % 16) as char && Hex(b, digits)[digits - 1] == HexDigit(b % 16) as char;
      HexInjective(a / 16, b / 16, digits - 1);
    }
  }

  lemma {:induction false} HexLength(n: nat, digits: nat)
    ensures |Hex(n, digits)| == digits
  {
    if digits > 0 {
      HexLength(n / 16, digits - 1);
    }
  }

  function WorkspaceName(id: nat): string {
    ".checkout-" + Hex(id, 8)
  }

  /** Distinct project IDs name distinct workspaces. */
  lemma NamesDistinct(a: nat, b: nat)
    requires a <= MAX_ID && b <= MAX_ID
    ensures WorkspaceName(a) == WorkspaceName(b) ==> a == b
  {
    assert Power16(8) == MAX_ID + 1 by {
      assert Power16(2) == 256;
      assert Power16(4) == 65536;
      assert Power16(6) == 16777216;
    }
    assert WorkspaceName(a)[10..] == Hex(a, 8) && WorkspaceName(b)[10..] == Hex(b, 8);
    HexInjective(a, b, 8);
  }

  // ----- validity -----

  predicate ValidRecord(l: Ledger, name: string, a: Allocation) {
    && name == a.name == WorkspaceName(a.id)
    && 0 < a.id < l.next
    && a.handle != 0 && a.bytes != 0 && a.inodes != 0
    && (if a.stage == Reserved then a.dev == 0 && a.ino == 0 else a.dev == l.mount.dev && a.ino != 0)
  }

  predicate ValidTerminal(l: Ledger, key: Key, t: Terminal) {
    && key == Digest(t.handle)
    && 0 < t.id < l.next
    && t.handle != 0 && t.dev == l.mount.dev && t.ino != 0 && t.completed != 0
  }

  predicate ValidRecords(l: Ledger) {
    forall n :: n in l.active ==> ValidRecord(l, n, l.active[n])
  }

  predicate UniqueRecords(active: map<string, Allocation>) {
    forall n, m :: n in active && m in active && n != m ==>
      active[n].id != active[m].id && active[n].handle != active[m].handle
  }

  predicate ValidTerminals(l: Ledger) {
    && (forall k :: k in l.terminal ==> ValidTerminal(l, k, l.terminal[k]))
    && (forall n :: n in l.active ==> Digest(l.active[n].handle) !in l.terminal)
  }

  /** What the daemon demands of a ledger it reads back. */
  predicate ValidLedger(l: Ledger) {
    ValidRecords(l) && UniqueRecords(l.active) && ValidTerminals(l)
  }

  /** The daemon's check itself, with its sets of IDs and handles seen so far. */
  method CheckLedger(l: Ledger) returns (ok: bool)
    ensures ok == ValidLedger(l)
  {
    hide ValidRecord, ValidRecords, UniqueRecords, ValidTerminals, Checked;
    var ids, handles := {}, {};
    var done, todo := {}, l.active.Keys;
    NoneChecked(l);
    while todo != {}
      invariant done !! todo && done + todo == l.active.Keys
      invariant Checked(l, done, ids, handles)
      decreases |todo|
    {
      var n :| n in todo;
      var a := l.active[n];
      if !ValidRecord(l, n, a) || a.id in ids || a.handle in handles {
        Rejected(l, done, ids, handles, n);
        return false;
      }
      CheckedOne(l, done, ids, handles, n);
      ids, handles := ids + {a.id}, handles + {a.handle};
      done, todo := done + {n}, todo - {n};
    }
    assert done == l.active.Keys;
    AllChecked(l, done, ids, handles);
    ok := CheckTerminals(l, handles);
  }

  ghost predicate Checked(l: Ledger, done: set<string>, ids: set<nat>, handles: set<Handle>) {
    && done <= l.active.Keys
    && (forall n :: n in done ==> ValidRecord(l, n, l.active[n]))
    && (forall n, m :: n in done && m in done && n != m ==>
          l.active[n].id != l.active[m].id && l.active[n].handle != l.active[m].handle)
    && ids == (set n | n in done :: l.active[n].id) && handles == (set n | n in done :: l.active[n].handle)
  }

  lemma NoneChecked(l: Ledger)
    ensures Checked(l, {}, {}, {})
  {
  }

  lemma Rejected(l: Ledger, done: set<string>, ids: set<nat>, handles: set<Handle>, n: string)
    requires Checked(l, done, ids, handles) && n in l.active && n !in done
    requires !ValidRecord(l, n, l.active[n]) || l.active[n].id in ids || l.active[n].handle in handles
    ensures !ValidLedger(l)
  {
    hide ValidRecord, ValidTerminals;
    if ValidRecord(l, n, l.active[n]) {
      var m :| m in done && (l.active[m].id == l.active[n].id || l.active[m].handle == l.active[n].handle);
      assert m in l.active && m != n;
    }
  }

  lemma CheckedOne(l: Ledger, done: set<string>, ids: set<nat>, handles: set<Handle>, n: string)
    requires Checked(l, done, ids, handles) && n in l.active && n !in done
    requires ValidRecord(l, n, l.active[n]) && l.active[n].id !in ids && l.active[n].handle !in handles
    ensures Checked(l, done + {n}, ids + {l.active[n].id}, handles + {l.active[n].handle})
  {
    hide ValidRecord;
  }

  lemma AllChecked(l: Ledger, done: set<string>, ids: set<nat>, handles: set<Handle>)
    requires Checked(l, done, ids, handles) && done == l.active.Keys
    ensures ValidRecords(l) && UniqueRecords(l.active)
    ensures handles == set n | n in l.active :: l.active[n].handle
  {
    hide ValidRecord;
  }

  method CheckTerminals(l: Ledger, active: set<Handle>) returns (ok: bool)
    requires active == set n | n in l.active :: l.active[n].handle
    ensures ok == ValidTerminals(l)
  {
    hide ValidTerminal, ValidTerminals, TerminalsChecked;
    var handles := active;
    var done: set<Key>, todo := {}, l.terminal.Keys;
    NoTerminalChecked(l, active);
    while todo != {}
      invariant done !! todo && done + todo == l.terminal.Keys
      invariant TerminalsChecked(l, active, done, handles)
      decreases |todo|
    {
      var k :| k in todo;
      var t := l.terminal[k];
      TerminalChecked(l, active, done, handles, k);
      if !ValidTerminal(l, k, t) || t.handle in handles {
        return false;
      }
      handles := handles + {t.handle};
      done, todo := done + {k}, todo - {k};
    }
    assert done == l.terminal.Keys;
    AllTerminalsChecked(l, active, done, handles);
    ok := true;
  }

  ghost predicate TerminalsChecked(l: Ledger, active: set<Handle>, done: set<Key>, handles: set<Handle>) {
    && done <= l.terminal.Keys && active <= handles
    && (forall k :: k in done ==> ValidTerminal(l, k, l.terminal[k]) && k.handle in handles && k.handle !in active)
    && (forall h :: h in handles ==> h in active || Digest(h) in done)
  }

  lemma NoTerminalChecked(l: Ledger, active: set<Handle>)
    ensures TerminalsChecked(l, active, {}, active)
  {
  }

  /** A terminal record fails the check exactly when the ledger is invalid for it: its key already
      tells it from every other terminal record. */
  lemma TerminalChecked(l: Ledger, active: set<Handle>, done: set<Key>, handles: set<Handle>, k: Key)
    requires TerminalsChecked(l, active, done, handles) && k in l.terminal && k !in done
    requires active == set n | n in l.active :: l.active[n].handle
    ensures var t := l.terminal[k];
      if ValidTerminal(l, k, t) && t.handle !in handles then TerminalsChecked(l, active, done + {k}, handles + {t.handle})
      else !ValidTerminals(l)
  {
    var t := l.terminal[k];
    if ValidTerminal(l, k, t) && t.handle in handles {
      assert k == Digest(t.handle) && t.handle in active;
    }
  }

  lemma AllTerminalsChecked(l: Ledger, active: set<Handle>, done: set<Key>, handles: set<Handle>)
    requires TerminalsChecked(l, active, done, handles) && done == l.terminal.Keys
    requires active == set n | n in l.active :: l.active[n].handle
    ensures ValidTerminals(l)
  {
    hide ValidTerminal;
    forall n | n in l.active ensures Digest(l.active[n].handle) !in l.terminal {
      assert l.active[n].handle in active;
      assert Digest(l.active[n].handle).handle == l.active[n].handle;
    }
  }

  // ----- edits -----

  datatype Change =
    | Reserve(id: nat, handle: Handle, bytes: nat, inodes: nat)
    | Capture(name: string, ino: nat)
    | Advance(name: string)
    | Retire(name: string)
    | Complete(name: string, now: int, kept: map<Key, Terminal>)
    | Drop(name: string)
  {
    function Name(): string {
      if Reserve? then WorkspaceName(id) else name
    }
  }

  function Successor(s: Stage): Stage
    requires s in {Preparing, Ready, Offered, Granting}
  {
    match s
    case Preparing => Ready
    case Ready => Offered
    case Offered => Granting
    case Granting => Active
  }

  function Handles(l: Ledger): set<Handle> {
    (set n | n in l.active :: l.active[n].handle) + (set k | k in l.terminal :: k.handle)
  }

  predicate Enabled(l: Ledger, c: Change) {
    match c
    case Reserve(id, handle, bytes, inodes) =>
      id == l.next && 0 < id < MAX_ID && handle != 0 && handle !in Handles(l) && bytes != 0 && inodes != 0
    case Capture(name, ino) => name in l.active && l.active[name].stage == Reserved && ino != 0
    case Advance(name) => name in l.active && l.active[name].stage in {Preparing, Ready, Offered, Granting}
    case Retire(name) => name in l.active && l.active[name].stage in {Offered, Granting, Active, Releasing}
    case Complete(name, now, kept) =>
      name in l.active && l.active[name].stage != Reserved && now != 0 && IsPruned(WithTerminal(l, name, now), now, kept)
    case Drop(name) => name in l.active && l.active[name].stage == Reserved
  }

  function Apply(l: Ledger, c: Change): Ledger
    requires Enabled(l, c)
  {
    match c
    case Reserve(id, handle, bytes, inodes) =>
      var name := WorkspaceName(id);
      l.(next := id + 1, active := l.active[name := Allocation(id, name, handle, 0, 0, bytes, inodes, Reserved)])
    case Capture(name, ino) =>
      l.(active := l.active[name := l.active[name].(dev := l.mount.dev, ino := ino, stage := Preparing)])
    case Advance(name) =>
      l.(active := l.active[name := l.active[name].(stage := Successor(l.active[name].stage))])
    case Retire(name) =>
      l.(active := l.active[name := l.active[name].(stage := Releasing)])
    case Complete(name, now, kept) => l.(active := l.active - {name}, terminal := kept)
    case Drop(name) => l.(active := l.active - {name})
  }

  function WithTerminal(l: Ledger, name: string, now: int): map<Key, Terminal>
    requires name in l.active
  {
    var a := l.active[name];
    l.terminal[Digest(a.handle) := Terminal(a.id, a.handle, a.dev, a.ino, now)]
  }

  // ----- pruning of the replay window -----

  predicate Expired(t: Terminal, now: int) {
    now - t.completed > TERMINAL_MAX_AGE
  }

  /** Kept entries are young and at most 1024; a young entry goes only when the window is full
      of entries at least as recent. */
  predicate IsPruned(terminal: map<Key, Terminal>, now: int, kept: map<Key, Terminal>) {
    && kept.Keys <= terminal.Keys
    && (forall k :: k in kept ==> kept[k] == terminal[k] && !Expired(terminal[k], now))
    && |kept| <= TERMINAL_MAX_COUNT
    && (forall k :: k in terminal && k !in kept && !Expired(terminal[k], now) ==> |kept| == TERMINAL_MAX_COUNT)
    && (forall k, j :: k in terminal && k !in kept && !Expired(terminal[k], now) && j in kept ==>
          terminal[k].completed <= kept[j].completed)
  }

  method PruneTerminal(terminal: map<Key, Terminal>, now: int) returns (kept: map<Key, Terminal>)
    ensures IsPruned(terminal, now, kept)
    ensures |kept| <= 1024 && forall k :: k in kept ==> k in terminal && kept[k] == terminal[k]
    ensures forall k :: k in kept ==> now - kept[k].completed <= 600_000_000_000
    ensures forall k :: k in terminal && now - terminal[k].completed <= 600_000_000_000 && k !in kept ==>
      |kept| == 1024 && forall j :: j in kept ==> terminal[k].completed <= kept[j].completed
  {
    kept := terminal;
    var todo := terminal.Keys;
    while todo != {}
      invariant todo <= terminal.Keys && kept.Keys <= terminal.Keys
      invariant forall k :: k in kept ==> kept[k] == terminal[k]
      invariant forall k :: k in terminal && k !in todo ==> (k in kept <==> !Expired(terminal[k], now))
      invariant forall k :: k in todo ==> k in kept
      decreases |todo|
    {
      var k :| k in todo;
      todo := todo - {k};
      if Expired(terminal[k], now) {
        kept := kept - {k};
      }
    }
    while |kept| > TERMINAL_MAX_COUNT
      invariant kept.Keys <= terminal.Keys
      invariant forall k :: k in kept ==> kept[k] == terminal[k] && !Expired(terminal[k], now)
      invariant forall k :: k in terminal && k !in kept && !Expired(terminal[k], now) ==> |kept| >= TERMINAL_MAX_COUNT
      invariant forall k, j :: k in terminal && k !in kept && !Expired(terminal[k], now) && j in kept ==>
        terminal[k].completed <= kept[j].completed
      decreases |kept|
    {
      var oldest := Oldest(kept);
      var rest := kept - {oldest};
      assert rest.Keys == kept.Keys - {oldest};
      assert |rest| == |rest.Keys| == |kept.Keys| - 1;
      kept := rest;
    }
  }

  method Oldest(terminal: map<Key, Terminal>) returns (oldest: Key)
    requires terminal != map[]
    ensures oldest in terminal && forall k :: k in terminal ==> terminal[oldest].completed <= terminal[k].completed
  {
    oldest :| oldest in terminal;
    var todo := terminal.Keys - {oldest};
    while todo != {}
      invariant todo <= terminal.Keys && oldest in terminal
      invariant forall k :: k in terminal && k !in todo ==> terminal[oldest].completed <= terminal[k].completed
      decreases |todo|
    {
      var k :| k in todo;
      todo := todo - {k};
      if terminal[k].completed < terminal[oldest].completed {
        oldest := k;
      }
    }
  }

  // ----- what edits keep -----

  /** Position of an ID in its life: not yet issued, its stage, or gone for good. */
  function Rank(l: Ledger, id: nat): nat {
    var name := WorkspaceName(id);
    if name in l.active then
      match l.active[name].stage
      case Reserved => 1
      case Preparing => 2
      case Ready => 3
      case Offered => 4
      case Granting => 5
      case Active => 6
      case Releasing => 7
    else if id < l.next then 8
    else 0
  }

  lemma ReplaceValid(l: Ledger, name: string, a: Allocation)
    requires ValidLedger(l) && name in l.active && ValidRecord(l, name, a)
    requires a.id == l.active[name].id && a.handle == l.active[name].handle
    ensures ValidLedger(l.(active := l.active[name := a]))
  {
    hide WorkspaceName;
  }

  lemma FreshHandle(l: Ledger, handle: Handle)
    requires handle !in Handles(l)
    ensures Digest(handle) !in l.terminal && forall n :: n in l.active ==> l.active[n].handle != handle
  {
    assert Digest(handle) in l.terminal ==> Digest(handle).handle in Handles(l);
  }

  lemma ReserveValid(l: Ledger, id: nat, handle: Handle, bytes: nat, inodes: nat)
    requires ValidLedger(l) && Enabled(l, Reserve(id, handle, bytes, inodes))
    ensures ValidLedger(Apply(l, Reserve(id, handle, bytes, inodes)))
  {
    hide WorkspaceName, Handles, UniqueRecords;
    NotIssued(l, id);
    FreshHandle(l, handle);
    ReserveUnique(l, id, handle, bytes, inodes);
  }

  lemma ReserveUnique(l: Ledger, id: nat, handle: Handle, bytes: nat, inodes: nat)
    requires ValidLedger(l) && Enabled(l, Reserve(id, handle, bytes, inodes))
    requires forall n :: n in l.active ==> l.active[n].handle != handle
    ensures UniqueRecords(Apply(l, Reserve(id, handle, bytes, inodes)).active)
  {
    hide WorkspaceName, Handles, ValidTerminals;
  }

  lemma CompleteValid(l: Ledger, name: string, now: int, kept: map<Key, Terminal>)
    requires ValidLedger(l) && Enabled(l, Complete(name, now, kept))
    ensures ValidLedger(Apply(l, Complete(name, now, kept)))
  {
    hide WorkspaceName, ValidLedger;
    RecordIsValid(l, name);
    CompleteTerminals(l, name, now, kept);
    DropValid(l, name);
    SwapTerminals(l.(active := l.active - {name}), kept);
  }

  lemma CompleteTerminals(l: Ledger, name: string, now: int, kept: map<Key, Terminal>)
    requires ValidLedger(l) && Enabled(l, Complete(name, now, kept)) && ValidRecord(l, name, l.active[name])
    ensures forall k :: k in kept ==> ValidTerminal(l, k, kept[k])
    ensures forall n :: n in l.active && n != name ==> Digest(l.active[n].handle) !in kept
  {
    hide ValidRecords;
    var before := WithTerminal(l, name, now);
    forall k | k in kept ensures ValidTerminal(l, k, kept[k]) {
      assert k in before;
    }
  }

  lemma SwapTerminals(l: Ledger, kept: map<Key, Terminal>)
    requires ValidLedger(l) && forall k :: k in kept ==> ValidTerminal(l, k, kept[k])
    requires forall n :: n in l.active ==> Digest(l.active[n].handle) !in kept
    ensures ValidLedger(l.(terminal := kept))
  {
    hide WorkspaceName, UniqueRecords;
    var r := l.(terminal := kept);
    forall n | n in r.active ensures ValidRecord(r, n, r.active[n]) {
      assert ValidRecord(l, n, l.active[n]);
    }
  }

  /** Every edit of a valid ledger is valid, so a restart never rejects the daemon's own state. */
  lemma ApplyValid(l: Ledger, c: Change)
    requires ValidLedger(l) && Enabled(l, c) && l.next <= MAX_ID
    ensures ValidLedger(Apply(l, c))
    ensures Apply(l, c).mount == l.mount
    ensures Apply(l, c).checkoutUID == l.checkoutUID && Apply(l, c).checkoutGID == l.checkoutGID
    ensures l.next <= Apply(l, c).next <= MAX_ID
  {
    hide WorkspaceName, ValidLedger;
    match c {
      case Reserve(id, handle, bytes, inodes) => ReserveValid(l, id, handle, bytes, inodes);
      case Complete(name, now, kept) => CompleteValid(l, name, now, kept);
      case Drop(name) => DropValid(l, name);
      case _ =>
        RecordIsValid(l, c.name);
        ReplaceValid(l, c.name, Apply(l, c).active[c.name]);
    }
  }

  lemma RecordIsValid(l: Ledger, name: string)
    requires ValidLedger(l) && name in l.active
    ensures ValidRecord(l, name, l.active[name])
  {
  }

  lemma DropValid(l: Ledger, name: string)
    requires ValidLedger(l)
    ensures ValidLedger(l.(active := l.active - {name}))
  {
    hide WorkspaceName;
  }

  /** An ID at or above the counter has no record. */
  lemma NotIssued(l: Ledger, id: nat)
    requires ValidLedger(l) && l.next <= id <= MAX_ID && l.next <= MAX_ID
    ensures WorkspaceName(id) !in l.active
  {
    var name := WorkspaceName(id);
    if name in l.active {
      NamesDistinct(l.active[name].id, id);
      assert false;
    }
  }

  /** Edits only move IDs forward. */
  lemma ApplyForward(l: Ledger, c: Change, id: nat)
    requires ValidLedger(l) && Enabled(l, c) && l.next <= MAX_ID && id <= MAX_ID
    ensures Rank(l, id) <= Rank(Apply(l, c), id)
  {
    hide WorkspaceName, ValidLedger;
    var name := WorkspaceName(id);
    if c.Reserve? {
      NamesDistinct(c.id, id);
      NotIssued(l, c.id);
    } else {
      RecordIsValid(l, c.name);
      NamesDistinct(l.active[c.name].id, id);
    }
    if name != c.Name() {
      ApplyOthers(l, c, name);
    }
  }

  lemma ApplyOthers(l: Ledger, c: Change, n: string)
    requires Enabled(l, c) && n != c.Name()
    ensures n in Apply(l, c).active <==> n in l.active
    ensures n in l.active ==> Apply(l, c).active[n] == l.active[n]
  {
  }
}
