/** The crash-safe quota protocol: every single effect of the service on its memory, its ledger
    file, the workspace directories and the quota limits is one step; a crash may fall between
    any two. Steps carry the conditions under which the service takes them. */
module QuotaProtocol {
  import opened Wrappers
  import opened Ledger
  import opened LedgerSize

  datatype Owner = Root | Checkout

  /** One workspace directory, named once and for all. An unlinked one may live on as an open
      descriptor. `project` 0 means none; `files` counts the entries charged to it. */
  datatype Dir = Dir(ino: nat, linked: bool, owner: Owner, mode: nat, project: nat, files: nat)

  datatype Limits = Limits(blocks: nat, inodes: nat)

  const PRIVATE: nat := 0x1C0  // 0700

  /** While the daemon is down `mem` is what it last held. `session` holds the handles issued by
      the running process. */
  datatype World = World(
    up: bool, mem: Ledger, disk: Ledger, session: set<Handle>, dirs: map<string, Dir>, limits: map<nat, Limits>)

  function Blocks(bytes: nat): nat {
    bytes / 512 + if bytes % 512 != 0 then 1 else 0
  }

  /** So many blocks of 512 bytes hold the given bytes, and one less does not. */
  predicate Enough(blocks: nat, bytes: nat) {
    512 * (blocks - 1) < bytes <= 512 * blocks
  }

  lemma BlocksAreEnough(bytes: nat)
    ensures Blocks(bytes) == 0 <==> bytes == 0
    ensures bytes > 0 ==> Enough(Blocks(bytes), bytes)
  {
  }

  /** Project and limits of the record are in force. */
  predicate Applied(w: World, a: Allocation) {
    && a.name in w.dirs && w.dirs[a.name].project == a.id
    && a.id in w.limits && w.limits[a.id] == Limits(Blocks(a.bytes), a.inodes)
  }

  /** Blocks or inodes still charged to a project: its files, and its directory while tagged. */
  function Usage(w: World, id: nat): nat {
    var name := WorkspaceName(id);
    if name in w.dirs then w.dirs[name].files + (if w.dirs[name].project == id then 1 else 0) else 0
  }

  predicate InStage(l: Ledger, name: string, s: Stage) {
    name in l.active && l.active[name].stage == s
  }

  /** The record entitles the checkout identity to the workspace, under enforced limits. */
  predicate Holds(w: World, l: Ledger, name: string) {
    && (InStage(l, name, Granting) || InStage(l, name, Active))
    && name in w.dirs && l.active[name].ino == w.dirs[name].ino
    && Applied(w, l.active[name])
  }

  predicate Ours(w: World, name: string) {
    name in w.mem.active && w.mem.active[name].handle in w.session
  }

  /** When the service writes a given edit. */
  predicate Guard(w: World, c: Change)
    requires Enabled(w.mem, c)
  {
    match c
    case Reserve(_, _, _, _) => true
    case Capture(name, ino) => name in w.dirs && w.dirs[name].ino == ino && Ours(w, name)
    case Advance(name) =>
      && (Ours(w, name) || w.mem.active[name].stage in {Offered, Granting})
      && Applied(w, w.mem.active[name]) && name in w.dirs
      && (w.mem.active[name].stage == Offered ==> w.dirs[name].owner == Root && w.dirs[name].mode == 0)
      && (w.mem.active[name].stage == Granting ==> w.dirs[name].owner == Checkout && w.dirs[name].mode == PRIVATE)
    case Retire(name) => name in w.dirs ==> w.dirs[name].owner == Root
    case Complete(name, _, _) =>
      && name in w.dirs && !w.dirs[name].linked && w.mem.active[name].id !in w.limits
      && (w.mem.active[name].stage == Releasing || !Ours(w, name))
    case Drop(name) => name !in w.dirs && !Ours(w, name)
  }

  datatype Step =
    | Persist(c: Change)                  // the rename took effect
    | Commit(c: Change)                   // memory follows a reported success
    | Mkdir(name: string, ino: nat)
    | SetProject(name: string, id: nat)
    | SetLimits(name: string)
    | ClearLimits(id: nat)
    | Grant(name: string)                 // fchown to the checkout identity
    | Chmod(name: string, mode: nat)
    | Revoke(name: string)                // fchown to root
    | Remove(name: string, left: nat)
    | Unlink(name: string)
    | Write(name: string, files: nat)     // the checkout process, or an open descriptor
    | Crash
    | Restart

  /** When a step is possible: a restart needs a ledger it can read back, every other step what the
      service checks first. */
  ghost predicate Can(w: World, s: Step) {
    if s.Restart? then !w.up && Fits(w.disk) else Permitted(w, s)
  }

  predicate Permitted(w: World, s: Step) {
    match s
    case Persist(c) => w.up && Enabled(w.mem, c) && Guard(w, c)
    case Commit(c) => w.up && Enabled(w.mem, c) && w.disk == Apply(w.mem, c)
    case Mkdir(name, ino) =>
      w.up && InStage(w.mem, name, Reserved) && Ours(w, name) && name !in w.dirs && ino != 0
      && forall n :: n in w.dirs ==> w.dirs[n].ino != ino
    case SetProject(name, id) =>
      w.up && name in w.dirs && w.dirs[name].owner == Root &&
      (id == 0 || (w.dirs[name].linked && InStage(w.mem, name, Preparing) && Ours(w, name) && w.mem.active[name].id == id))
    case SetLimits(name) => w.up && InStage(w.mem, name, Preparing) && Ours(w, name)
    case ClearLimits(id) => w.up && (WorkspaceName(id) in w.dirs ==> w.dirs[WorkspaceName(id)].owner == Root)
    case Grant(name) =>
      w.up && name in w.dirs && w.dirs[name].linked && InStage(w.mem, name, Granting)
      && name in w.disk.active && w.disk.active[name] == w.mem.active[name] && Applied(w, w.mem.active[name])
    case Chmod(name, _) => w.up && name in w.dirs
    case Revoke(name) => w.up && name in w.dirs
    case Remove(name, left) => w.up && name in w.dirs && left <= w.dirs[name].files
    case Unlink(name) =>
      w.up && name in w.dirs && w.dirs[name].linked && w.dirs[name].owner == Root && w.dirs[name].files == 0
      && w.dirs[name].project == 0 && name in w.mem.active && w.mem.active[name].stage != Reserved
    case Write(name, _) => name in w.dirs && w.dirs[name].linked
    case Crash => w.up
    case Restart => false
  }

  function Do(w: World, s: Step): World
    requires Can(w, s)
  {
    match s
    case Persist(c) => w.(disk := Apply(w.mem, c))
    case Commit(c) => w.(mem := w.disk, session := if c.Reserve? then w.session + {c.handle} else w.session)
    case Mkdir(name, ino) => w.(dirs := w.dirs[name := Dir(ino, true, Root, 0, 0, 0)])
    case SetProject(name, id) => w.(dirs := w.dirs[name := w.dirs[name].(project := id)])
    case SetLimits(name) =>
      var a := w.mem.active[name];
      w.(limits := w.limits[a.id := Limits(Blocks(a.bytes), a.inodes)])
    case ClearLimits(id) => w.(limits := w.limits - {id})
    case Grant(name) => w.(dirs := w.dirs[name := w.dirs[name].(owner := Checkout)])
    case Chmod(name, mode) => w.(dirs := w.dirs[name := w.dirs[name].(mode := mode)])
    case Revoke(name) => w.(dirs := w.dirs[name := w.dirs[name].(owner := Root)])
    case Remove(name, left) => w.(dirs := w.dirs[name := w.dirs[name].(files := left)])
    case Unlink(name) => w.(dirs := w.dirs[name := w.dirs[name].(linked := false)])
    case Write(name, files) => w.(dirs := w.dirs[name := w.dirs[name].(files := files)])
    case Crash => w.(up := false, session := {})
    case Restart => w.(up := true, mem := w.disk)
  }

  ghost predicate Next(w: World, w': World) {
    exists s :: Can(w, s) && w' == Do(w, s)
  }

  // ----- the invariant -----

  ghost predicate AheadOne(mem: Ledger, disk: Ledger) {
    disk == mem || exists c :: Enabled(mem, c) && disk == Apply(mem, c)
  }

  ghost predicate Ledgers(w: World) {
    && ValidLedger(w.mem) && ValidLedger(w.disk)
    && w.mem.mount == w.disk.mount && w.mem.checkoutUID == w.disk.checkoutUID && w.mem.checkoutGID == w.disk.checkoutGID
    && 0 < w.mem.next <= w.disk.next <= MAX_ID
    && AheadOne(w.mem, w.disk)
  }

  /** What a ledger record says about its directory, and a gone record about what is left. */
  ghost predicate RecordOk(w: World, l: Ledger, name: string)
    requires name in l.active
  {
    var a := l.active[name];
    if a.stage == Reserved then
      && (name in w.dirs ==> w.dirs[name].linked && w.dirs[name].owner == Root && w.dirs[name].project == 0)
      && a.id !in w.limits
    else
      name in w.dirs && w.dirs[name].ino == a.ino
  }

  ghost predicate GoneOk(w: World, l: Ledger, id: nat) {
    var name := WorkspaceName(id);
    0 < id < l.next && name !in l.active ==> id !in w.limits && (name in w.dirs ==> !w.dirs[name].linked)
  }

  ghost predicate DirOk(w: World, name: string)
    requires name in w.dirs
  {
    var d := w.dirs[name];
    && d.ino != 0
    && (exists id :: 0 < id < w.mem.next && name == WorkspaceName(id))
    && (d.owner == Checkout ==> d.linked && Holds(w, w.mem, name) && Holds(w, w.disk, name))
    && (!d.linked ==> d.files == 0 && d.project == 0)
  }

  ghost predicate DistinctInodes(dirs: map<string, Dir>) {
    forall n, m :: n in dirs && m in dirs && n != m ==> dirs[n].ino != dirs[m].ino
  }

  lemma DistinctUpdate(dirs: map<string, Dir>, name: string, d: Dir)
    requires DistinctInodes(dirs)
    requires if name in dirs then d.ino == dirs[name].ino else forall n :: n in dirs ==> dirs[n].ino != d.ino
    ensures DistinctInodes(dirs[name := d])
  {
  }

  ghost predicate Inv(w: World) {
    && Ledgers(w)
    && (forall n :: n in w.mem.active ==> RecordOk(w, w.mem, n))
    && (forall n :: n in w.disk.active ==> RecordOk(w, w.disk, n))
    && (forall id :: GoneOk(w, w.mem, id))
    && (forall id :: GoneOk(w, w.disk, id))
    && (forall id :: id in w.limits ==> 0 < id < w.mem.next)
    && (forall n :: n in w.dirs ==> DirOk(w, n))
    && DistinctInodes(w.dirs)
    && (forall n :: Ours(w, n) && w.mem.active[n].stage in {Reserved, Preparing} ==> n in w.disk.active)
  }

  /** A freshly initialized daemon over an untouched namespace. */
  ghost predicate Init(w: World) {
    && w.up && w.mem == w.disk && w.mem.active == map[] && w.mem.terminal == map[]
    && 0 < w.mem.next < MAX_ID && w.session == {} && w.dirs == map[] && w.limits == map[]
  }

  lemma InitInv(w: World)
    requires Init(w)
    ensures Inv(w)
  {
    hide WorkspaceName;
  }

  // ----- every step keeps the invariant -----

  lemma AheadSelf(l: Ledger)
    ensures AheadOne(l, l)
  {
  }

  lemma CrashInv(w: World)
    requires Inv(w) && Can(w, Crash)
    ensures Inv(Do(w, Crash))
  {
    hide WorkspaceName, ValidLedger, Enabled, Apply, Guard, DistinctInodes, AheadOne, Fits;
    var w' := Do(w, Crash);
    forall n | n in w'.dirs ensures DirOk(w', n) {
      assert DirOk(w, n);
    }
    forall id ensures GoneOk(w', w'.mem, id) && GoneOk(w', w'.disk, id) {
      assert GoneOk(w, w.mem, id) && GoneOk(w, w.disk, id);
    }
  }

  lemma RestartInv(w: World)
    requires Inv(w) && Can(w, Restart)
    ensures Inv(Do(w, Restart))
  {
    hide WorkspaceName, ValidLedger, Enabled, Apply, Guard, DistinctInodes, AheadOne, Fits;
    AheadSelf(w.disk);
    var w' := Do(w, Restart);
    forall n | n in w'.dirs ensures DirOk(w', n) {
      assert DirOk(w, n);
    }
    forall id ensures GoneOk(w', w'.mem, id) {
      assert GoneOk(w, w.disk, id);
    }
  }

  /** Disk is never behind memory for a record past its reservation. */
  lemma NotReservedOnDisk(w: World, name: string)
    requires Ledgers(w) && name in w.mem.active && w.mem.active[name].stage != Reserved
    ensures !InStage(w.disk, name, Reserved)
  {
    hide WorkspaceName, Handles, ValidTerminals, UniqueRecords;
    if w.disk != w.mem {
      var c :| Enabled(w.mem, c) && w.disk == Apply(w.mem, c);
      if c.Reserve? {
        NotIssued(w.mem, c.id);
      }
    }
  }

  ghost predicate FitsRecord(w: World, name: string, d: Dir) {
    && (InStage(w.mem, name, Reserved) || InStage(w.disk, name, Reserved) ==> d.linked && d.owner == Root && d.project == 0)
    && (d.owner == Checkout ==> d.linked && Holds(w, w.mem, name) && Holds(w, w.disk, name))
    && (!d.linked ==> d.files == 0 && d.project == 0)
  }

  /** Changing one directory in a way its record allows keeps the invariant. */
  lemma DirUpdateInv(w: World, name: string, d: Dir)
    requires Inv(w) && name in w.dirs && d.ino == w.dirs[name].ino && (d.linked ==> w.dirs[name].linked)
    requires FitsRecord(w.(dirs := w.dirs[name := d]), name, d)
    ensures Inv(w.(dirs := w.dirs[name := d]))
  {
    hide WorkspaceName, ValidTerminals, UniqueRecords, AheadOne, DistinctInodes;
    var w' := w.(dirs := w.dirs[name := d]);
    DistinctUpdate(w.dirs, name, d);
    forall n | n in w'.dirs ensures DirOk(w', n) {
      assert DirOk(w, n);
    }
    forall id ensures GoneOk(w', w'.mem, id) && GoneOk(w', w'.disk, id) {
      assert GoneOk(w, w.mem, id) && GoneOk(w, w.disk, id);
    }
    forall n | n in w'.mem.active ensures RecordOk(w', w'.mem, n) {
      assert RecordOk(w, w.mem, n);
    }
    forall n | n in w'.disk.active ensures RecordOk(w', w'.disk, n) {
      assert RecordOk(w, w.disk, n);
    }
    forall n | Ours(w', n) && w'.mem.active[n].stage in {Reserved, Preparing} ensures n in w'.disk.active {
      assert Ours(w, n);
    }
  }

  lemma FromInv(w: World, name: string)
    requires Inv(w)
    ensures Ledgers(w)
    ensures name in w.dirs ==> DirOk(w, name)
    ensures name in w.mem.active ==> RecordOk(w, w.mem, name) && ValidRecord(w.mem, name, w.mem.active[name])
    ensures name in w.disk.active ==> RecordOk(w, w.disk, name) && ValidRecord(w.disk, name, w.disk.active[name])
  {
    hide WorkspaceName, ValidTerminals, UniqueRecords, AheadOne;
  }

  lemma DirStepInv(w: World, s: Step)
    requires Inv(w) && Can(w, s)
    requires s.SetProject? || s.Grant? || s.Chmod? || s.Revoke? || s.Remove? || s.Unlink? || s.Write?
    ensures Inv(Do(w, s))
  {
    hide WorkspaceName, ValidTerminals, UniqueRecords, AheadOne, ValidLedger, Inv, Enabled, Apply;
    FromInv(w, s.name);
    if s.name in w.mem.active && w.mem.active[s.name].stage != Reserved {
      NotReservedOnDisk(w, s.name);
    }
    DirUpdateInv(w, s.name, Do(w, s).dirs[s.name]);
  }

  lemma MkdirInv(w: World, name: string, ino: nat)
    requires Inv(w) && Can(w, Mkdir(name, ino))
    ensures Inv(Do(w, Mkdir(name, ino)))
  {
    hide WorkspaceName, ValidTerminals, UniqueRecords, AheadOne, DistinctInodes, Enabled, Apply, Guard;
    var w' := Do(w, Mkdir(name, ino));
    DistinctUpdate(w.dirs, name, Dir(ino, true, Root, 0, 0, 0));
    assert ValidRecord(w.mem, name, w.mem.active[name]);
    forall n | n in w'.dirs ensures DirOk(w', n) {
      if n != name {
        assert DirOk(w, n);
      }
    }
    forall id ensures GoneOk(w', w'.mem, id) && GoneOk(w', w'.disk, id) {
      assert GoneOk(w, w.mem, id) && GoneOk(w, w.disk, id);
    }
    forall n | n in w'.mem.active ensures RecordOk(w', w'.mem, n) {
      assert RecordOk(w, w.mem, n);
    }
    forall n | n in w'.disk.active ensures RecordOk(w', w'.disk, n) {
      assert RecordOk(w, w.disk, n);
    }
    forall n | Ours(w', n) && w'.mem.active[n].stage in {Reserved, Preparing} ensures n in w'.disk.active {
      assert Ours(w, n);
    }
  }

  /** Limits may change freely as long as no entitled workspace loses its own and no gone or
      merely reserved ID gains one. */
  lemma LimitsInv(w: World, limits: map<nat, Limits>, id: nat)
    requires Inv(w)
    requires forall i :: i != id ==> (i in limits <==> i in w.limits) && (i in limits ==> limits[i] == w.limits[i])
    requires id in limits ==> 0 < id < w.mem.next
    requires id in limits ==> WorkspaceName(id) in w.mem.active && !InStage(w.mem, WorkspaceName(id), Reserved)
    requires id in limits ==> WorkspaceName(id) in w.disk.active && !InStage(w.disk, WorkspaceName(id), Reserved)
    requires WorkspaceName(id) in w.dirs ==> w.dirs[WorkspaceName(id)].owner == Root
    ensures Inv(w.(limits := limits))
  {
    hide WorkspaceName, ValidTerminals, UniqueRecords, AheadOne, DistinctInodes;
    var w' := w.(limits := limits);
    forall n | n in w'.dirs ensures DirOk(w', n) {
      assert DirOk(w, n);
    }
    forall i ensures GoneOk(w', w'.mem, i) && GoneOk(w', w'.disk, i) {
      assert GoneOk(w, w.mem, i) && GoneOk(w, w.disk, i);
    }
    forall n | n in w'.mem.active ensures RecordOk(w', w'.mem, n) {
      assert RecordOk(w, w.mem, n);
    }
    forall n | n in w'.disk.active ensures RecordOk(w', w'.disk, n) {
      assert RecordOk(w, w.disk, n);
    }
    forall n | Ours(w', n) && w'.mem.active[n].stage in {Reserved, Preparing} ensures n in w'.disk.active {
      assert Ours(w, n);
    }
  }

  lemma LimitStepInv(w: World, s: Step)
    requires Inv(w) && Can(w, s) && (s.SetLimits? || s.ClearLimits?)
    ensures Inv(Do(w, s))
  {
    hide WorkspaceName, ValidTerminals, UniqueRecords, AheadOne, ValidLedger, Enabled, Apply;
    var w' := Do(w, s);
    if s.SetLimits? {
      FromInv(w, s.name);
      NotReservedOnDisk(w, s.name);
      LimitsInv(w, w'.limits, w.mem.active[s.name].id);
    } else {
      LimitsInv(w, w'.limits, s.id);
    }
  }

  lemma CommitInv(w: World, c: Change)
    requires Inv(w) && Can(w, Commit(c))
    ensures Inv(Do(w, Commit(c)))
  {
    hide WorkspaceName, ValidTerminals, UniqueRecords, ValidRecords, Enabled, Apply;
    var w' := Do(w, Commit(c));
    forall n | n in w'.dirs ensures DirOk(w', n) {
      assert DirOk(w, n);
    }
    forall i ensures GoneOk(w', w'.disk, i) {
      assert GoneOk(w, w.disk, i);
    }
    forall n | n in w'.disk.active ensures RecordOk(w', w'.disk, n) {
      assert RecordOk(w, w.disk, n);
    }
  }

  /** The record an edit touches, as the edited ledger has it. */
  lemma EditedRecordOk(w: World, c: Change)
    requires Inv(w) && Can(w, Persist(c)) && c.Name() in Apply(w.mem, c).active
    ensures RecordOk(Do(w, Persist(c)), Apply(w.mem, c), c.Name())
  {
    hide WorkspaceName, ValidTerminals, UniqueRecords, AheadOne, Handles, Inv;
    FromInv(w, c.Name());
    if c.Reserve? {
      UnissuedName(w, c.id);
    }
  }

  lemma UnissuedName(w: World, id: nat)
    requires Inv(w) && w.mem.next <= id <= MAX_ID
    ensures WorkspaceName(id) !in w.dirs && id !in w.limits
  {
    hide WorkspaceName, ValidTerminals, UniqueRecords, ValidRecords, AheadOne;
    var name := WorkspaceName(id);
    if name in w.dirs {
      assert DirOk(w, name);
      var other :| 0 < other < w.mem.next && name == WorkspaceName(other);
      NamesDistinct(id, other);
      assert false;
    }
  }

  lemma PersistGone(w: World, c: Change, id: nat)
    requires Inv(w) && Can(w, Persist(c))
    ensures GoneOk(Do(w, Persist(c)), Apply(w.mem, c), id)
  {
    hide WorkspaceName, ValidTerminals, UniqueRecords, AheadOne, Handles, IsPruned;
    var name := WorkspaceName(id);
    assert GoneOk(w, w.mem, id);
    ApplyValid(w.mem, c);
    if c.Name() != name {
      ApplyOthers(w.mem, c, name);
      if c.Reserve? && id <= MAX_ID {
        NamesDistinct(c.id, id);
      }
    } else if !c.Reserve? {
      FromInv(w, name);
      if id <= MAX_ID {
        NamesDistinct(w.mem.active[name].id, id);
      }
    }
  }

  lemma PersistHolds(w: World, c: Change, name: string)
    requires Inv(w) && Can(w, Persist(c)) && name in w.dirs && w.dirs[name].owner == Checkout
    ensures Holds(Do(w, Persist(c)), Apply(w.mem, c), name)
  {
    hide WorkspaceName, ValidTerminals, UniqueRecords, AheadOne, Handles, IsPruned, Inv;
    FromInv(w, name);
    if c.Name() != name {
      ApplyOthers(w.mem, c, name);
    } else if c.Reserve? {
      UnissuedName(w, c.id);
    }
  }

  lemma PersistInv(w: World, c: Change)
    requires Inv(w) && Can(w, Persist(c))
    ensures Inv(Do(w, Persist(c)))
  {
    hide WorkspaceName, ValidTerminals, UniqueRecords, ValidRecords, Handles, IsPruned, Applied, Apply;
    var w' := Do(w, Persist(c));
    ApplyValid(w.mem, c);
    forall n | n in w'.disk.active ensures RecordOk(w', w'.disk, n) {
      if n == c.Name() {
        EditedRecordOk(w, c);
      } else {
        ApplyOthers(w.mem, c, n);
        assert RecordOk(w, w.mem, n);
      }
    }
    forall i ensures GoneOk(w', w'.mem, i) && GoneOk(w', w'.disk, i) {
      assert GoneOk(w, w.mem, i);
      PersistGone(w, c, i);
    }
    forall n | n in w'.dirs ensures DirOk(w', n) {
      assert DirOk(w, n);
      if w.dirs[n].owner == Checkout {
        PersistHolds(w, c, n);
        HoldsUnchanged(w, w', n);
      }
    }
    forall n | Ours(w', n) && w'.mem.active[n].stage in {Reserved, Preparing} ensures n in w'.disk.active {
      PersistKeepsEarly(w, c, n);
    }
  }

  lemma HoldsUnchanged(w: World, w': World, name: string)
    requires Holds(w, w.mem, name) && w'.mem == w.mem && w'.dirs == w.dirs && w'.limits == w.limits
    ensures Holds(w', w'.mem, name)
  {
  }

  lemma PersistKeepsEarly(w: World, c: Change, n: string)
    requires Can(w, Persist(c)) && Ours(w, n) && w.mem.active[n].stage in {Reserved, Preparing}
    ensures n in Apply(w.mem, c).active
  {
    hide WorkspaceName, IsPruned, Handles;
    if c.Name() != n {
      ApplyOthers(w.mem, c, n);
    }
  }

  /** Every step, crash and restart included, keeps the invariant. */
  lemma StepInv(w: World, s: Step)
    requires Inv(w) && Can(w, s)
    ensures Inv(Do(w, s))
  {
    hide Inv, Can, Do;
    match s {
      case Persist(c) => PersistInv(w, c);
      case Commit(c) => CommitInv(w, c);
      case Mkdir(name, ino) => MkdirInv(w, name, ino);
      case SetLimits(_) => LimitStepInv(w, s);
      case ClearLimits(_) => LimitStepInv(w, s);
      case Crash => CrashInv(w);
      case Restart => RestartInv(w);
      case _ => DirStepInv(w, s);
    }
  }

  // ----- whole runs -----

  ghost predicate IsRun(run: seq<World>) {
    && run != [] && Init(run[0])
    && forall i :: 0 <= i < |run| - 1 ==> Next(run[i], run[i + 1])
  }

  lemma {:induction false} RunInv(run: seq<World>, i: nat)
    requires IsRun(run) && i < |run|
    ensures Inv(run[i])
  {
    hide Inv, Init, Can, Do;
    if i == 0 {
      InitInv(run[0]);
    } else {
      RunInv(run, i - 1);
      assert Next(run[i - 1], run[i - 1 + 1]);
      var s :| Can(run[i - 1], s) && run[i] == Do(run[i - 1], s);
      StepInv(run[i - 1], s);
    }
  }

  /** Write-ahead access: in every state of every run the checkout identity owns a workspace only
      while memory and disk both grant it, and only under its enforced project and limits. */
  lemma WriteAheadAccess(run: seq<World>, i: nat, name: string)
    requires IsRun(run) && i < |run| && name in run[i].dirs && run[i].dirs[name].owner == Checkout
    ensures Holds(run[i], run[i].mem, name) && Holds(run[i], run[i].disk, name) && run[i].dirs[name].linked
    ensures var w, a := run[i], run[i].mem.active[name];
      && w.dirs[name].project == a.id && a.stage in {Granting, Active}
      && a.id in w.limits && Enough(w.limits[a.id].blocks, a.bytes) && w.limits[a.id].inodes == a.inodes
  {
    hide Can, Do, Init;
    RunInv(run, i);
    FromInv(run[i], name);
    BlocksAreEnough(run[i].mem.active[name].bytes);
  }

  ghost predicate SameIdentity(a: Ledger, b: Ledger) {
    a.mount == b.mount && a.checkoutUID == b.checkoutUID && a.checkoutGID == b.checkoutGID
  }

  lemma StepIdentity(w: World, s: Step)
    requires Ledgers(w) && Can(w, s)
    ensures SameIdentity(w.mem, Do(w, s).mem)
  {
    hide WorkspaceName, ValidLedger, AheadOne, Apply, Enabled;
  }

  lemma RunStep(run: seq<World>, i: nat) returns (s: Step)
    requires IsRun(run) && i + 1 < |run|
    ensures Inv(run[i]) && Can(run[i], s) && run[i + 1] == Do(run[i], s)
  {
    hide Inv, Init, Can, Do;
    RunInv(run, i);
    assert Next(run[i], run[i + 1]);
    s :| Can(run[i], s) && run[i + 1] == Do(run[i], s);
  }

  lemma {:induction false} RunIdentity(run: seq<World>, i: nat)
    requires IsRun(run) && i < |run|
    ensures SameIdentity(run[0].mem, run[i].mem)
  {
    hide Init, Can, Do, Inv, Ledgers;
    if i > 0 {
      RunIdentity(run, i - 1);
      var s := RunStep(run, i - 1);
      FromInv(run[i - 1], "");
      StepIdentity(run[i - 1], s);
    }
  }

  /** In every state of every run the ledger file is one the daemon accepts exactly when it fits the
      read limit: validity and identity never stand in the way. */
  lemma RestartAcceptsOwnLedger(run: seq<World>, i: nat)
    requires IsRun(run) && i < |run|
    ensures var l, cfg := run[i].disk, run[0].mem;
      Load(l, cfg.mount, cfg.checkoutUID, cfg.checkoutGID) == Some(l) <==> Fits(l)
    ensures !run[i].up ==> (Can(run[i], Restart) <==> Fits(run[i].disk))
  {
    hide Do, Init, Fits;
    RunInv(run, i);
    RunIdentity(run, i);
  }

  // ----- a ledger that is too long -----

  /** The next reservation, written and taken up. */
  lemma ReserveOne(run: seq<World>, w: World) returns (more: seq<World>, w': World)
    requires IsRun(run) && run[|run| - 1] == w && w.up && w.mem == w.disk && w.mem.next < MAX_ID
    requires Enabled(w.mem, Reserve(w.mem.next, w.mem.next, 1, 1))
    ensures IsRun(more) && more[|more| - 1] == w' && w'.up && w'.mem == w'.disk
    ensures w'.mem == Apply(w.mem, Reserve(w.mem.next, w.mem.next, 1, 1))
    ensures run <= more
  {
    hide Init, Handles, WorkspaceName, Next;
    var c := Reserve(w.mem.next, w.mem.next, 1, 1);
    RunGrows(run, Persist(c));
    var w1 := Do(w, Persist(c));
    RunGrows(run + [w1], Commit(c));
    w' := Do(w1, Commit(c));
    more := run + [w1] + [w'];
  }

  lemma RunGrows(run: seq<World>, s: Step)
    requires IsRun(run) && Can(run[|run| - 1], s)
    ensures IsRun(run + [Do(run[|run| - 1], s)])
  {
    hide Can, Do, Init;
    var longer := run + [Do(run[|run| - 1], s)];
    forall i | 0 <= i < |longer| - 1 ensures Next(longer[i], longer[i + 1]) {
      if i < |run| - 1 {
        assert Next(run[i], run[i + 1]);
      }
    }
  }

  lemma ReservedGrows(l: Ledger)
    requires ValidLedger(l) && 0 < l.next < MAX_ID && forall h :: h in Handles(l) ==> h < l.next
    requires Enabled(l, Reserve(l.next, l.next, 1, 1))
    ensures var l' := Apply(l, Reserve(l.next, l.next, 1, 1));
      && |l'.active| == |l.active| + 1 && l'.next == l.next + 1
      && forall h :: h in Handles(l') ==> h < l'.next
  {
    hide WorkspaceName, ValidLedger, Handles, Enabled;
    NotIssued(l, l.next);
    var l', name := Apply(l, Reserve(l.next, l.next, 1, 1)), WorkspaceName(l.next);
    assert l'.active.Keys == l.active.Keys + {name};
    ReservedHandles(l, l');
  }

  lemma ReservedHandles(l: Ledger, l': Ledger)
    requires Enabled(l, Reserve(l.next, l.next, 1, 1)) && l' == Apply(l, Reserve(l.next, l.next, 1, 1))
    ensures forall h :: h in Handles(l') ==> h == l.next || h in Handles(l)
  {
    hide WorkspaceName;
  }

  /** Runs reach any number of reserved records: reservations whose directory could not be made. */
  lemma {:induction false} ReservationsPileUp(first: World, n: nat) returns (run: seq<World>)
    requires Init(first) && first.mem.next + n <= MAX_ID
    ensures IsRun(run) && run[0] == first
    ensures var w := run[|run| - 1];
      && w.up && w.mem == w.disk && |w.mem.active| == n && w.mem.next == first.mem.next + n
      && forall h :: h in Handles(w.mem) ==> h < w.mem.next
  {
    hide WorkspaceName, Inv, Apply, Enabled, Handles;
    if n == 0 {
      run := [first];
      NoHandles(first.mem);
    } else {
      var shorter := ReservationsPileUp(first, n - 1);
      var w := shorter[|shorter| - 1];
      RunInv(shorter, |shorter| - 1);
      FromInv(w, "");
      CanReserve(w.mem);
      ReservedGrows(w.mem);
      var w';
      run, w' := ReserveOne(shorter, w);
    }
  }

  lemma NoHandles(l: Ledger)
    requires l.active == map[] && l.terminal == map[]
    ensures Handles(l) == {}
  {
  }

  lemma CanReserve(l: Ledger)
    requires 0 < l.next < MAX_ID && forall h :: h in Handles(l) ==> h < l.next
    ensures Enabled(l, Reserve(l.next, l.next, 1, 1))
  {
    hide Handles;
  }

  /** So an oversized ledger is reachable from every initial state with room for 9300 IDs. */
  lemma OversizedLedgerIsReachable(first: World) returns (run: seq<World>)
    requires Init(first) && first.mem.next + 9300 <= MAX_ID
    ensures IsRun(run) && run[0] == first && run[|run| - 1].up && !Fits(run[|run| - 1].disk)
  {
    hide Fits, Handles, Next;
    run := ReservationsPileUp(first, 9300);
    ManyRecordsDoNotFit(run[|run| - 1].disk);
  }

  /** After a crash on such a ledger the daemon never comes up again. */
  lemma {:induction false} OversizedCrashIsFinal(run: seq<World>, i: nat, j: nat)
    requires IsRun(run) && i <= j < |run| && !run[i].up && !Fits(run[i].disk)
    ensures !run[j].up && run[j].disk == run[i].disk
    decreases j
  {
    hide WorkspaceName, Inv, Init, Apply, Enabled, Guard, Applied, Fits;
    if i < j {
      OversizedCrashIsFinal(run, i, j - 1);
      var s := RunStep(run, j - 1);
    }
  }

  /** No step moves an ID backward in memory: not a failed persist, not a crash, not a restart. */
  lemma StepForward(w: World, s: Step, id: nat)
    requires Ledgers(w) && Can(w, s) && id <= MAX_ID
    ensures Rank(w.mem, id) <= Rank(Do(w, s).mem, id) && w.mem.next <= Do(w, s).mem.next <= MAX_ID
  {
    hide WorkspaceName, ValidLedger, Apply, Enabled, Rank;
    if w.disk != w.mem {
      var c :| Enabled(w.mem, c) && w.disk == Apply(w.mem, c);
      ApplyForward(w.mem, c, id);
    }
  }

  lemma {:induction false} NeverBackward(run: seq<World>, i: nat, j: nat, id: nat)
    requires IsRun(run) && i <= j < |run| && id <= MAX_ID
    ensures Rank(run[i].mem, id) <= Rank(run[j].mem, id) && run[i].mem.next <= run[j].mem.next <= MAX_ID
    decreases j - i
  {
    hide Init, Can, Do, Inv, Ledgers, Rank;
    if i < j {
      NeverBackward(run, i, j - 1, id);
      var s := RunStep(run, j - 1);
      FromInv(run[j - 1], "");
      StepForward(run[j - 1], s, id);
    } else {
      RunInv(run, i);
      NextInRange(run[i]);
    }
  }

  lemma NextInRange(w: World)
    requires Inv(w)
    ensures w.mem.next <= MAX_ID
  {
    hide WorkspaceName;
  }

  /** An ID is issued at most once in any run: whenever memory takes up a reservation its ID is
      the counter, and the counter has passed it ever after. */
  lemma IdsNeverReused(run: seq<World>, i: nat, j: nat, a: Change, b: Change)
    requires IsRun(run) && i < j && j + 1 < |run| && a.Reserve? && b.Reserve?
    requires Can(run[i], Commit(a)) && run[i + 1] == Do(run[i], Commit(a))
    requires Can(run[j], Commit(b)) && run[j + 1] == Do(run[j], Commit(b))
    ensures a.id < b.id < MAX_ID
  {
    hide WorkspaceName, Inv, Init;
    NeverBackward(run, i + 1, j, 0);
  }
}
