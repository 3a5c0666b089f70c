/** The service itself: the operations of the quota daemon, effect by effect. Every effect goes
    through `Take`, so the log of worlds is a run of the protocol and a crash after any prefix of
    it is covered by the theorems about runs. */
module QuotaService {
  import opened Wrappers
  import opened Ledger
  import opened LedgerSize
  import opened QuotaProtocol
  import opened QuotaRestart

  datatype Status = Ok | Invalid | Denied | Unavailable | Retryable | Completed

  /** One workspace and one ID look the same in two worlds. */
  ghost predicate SameAt(w: World, w': World, n: string, i: nat) {
    && (n in w'.mem.active <==> n in w.mem.active)
    && (n in w.mem.active ==> w'.mem.active[n] == w.mem.active[n])
    && (n in w'.dirs <==> n in w.dirs)
    && (n in w.dirs ==> w'.dirs[n] == w.dirs[n])
    && (i in w'.limits <==> i in w.limits)
    && (i in w.limits ==> w'.limits[i] == w.limits[i])
  }

  /** Everything but one workspace and its ID is as it was. */
  ghost predicate OthersKept(w: World, w': World, name: string, id: nat) {
    forall n, i :: n != name && i != id ==> SameAt(w, w', n, i)
  }

  lemma KeptKept(base: World, w: World, w': World, name: string, id: nat)
    requires OthersKept(base, w, name, id) && OthersKept(w, w', name, id)
    ensures OthersKept(base, w', name, id)
  {
    forall n, i | n != name && i != id ensures SameAt(base, w', n, i) {
      assert SameAt(base, w, n, i) && SameAt(w, w', n, i);
    }
  }

  /** The log has grown, and wherever only own offers were acknowledged before, that is still so. */
  ghost predicate Grew(before: seq<World>, after: seq<World>) {
    before <= after && forall m :: OwnFrom(before, m) ==> OwnFrom(after, m)
  }

  lemma OwnGrows(run: seq<World>, s: Step)
    requires IsRun(run) && Can(run[|run| - 1], s) && OwnStep(run[|run| - 1], s)
    ensures Grew(run, run + [Do(run[|run| - 1], s)])
  {
    hide Can, Do, Init, Next, OwnStep;
    var longer := run + [Do(run[|run| - 1], s)];
    forall m: nat, i | OwnFrom(run, m) && m <= i < |longer| - 1 ensures NextOwn(longer[i], longer[i + 1]) {
      if i < |run| - 1 {
        assert NextOwn(run[i], run[i + 1]);
      }
    }
  }

  /** Only one directory may differ. */
  ghost predicate OnlyDir(w: World, w': World, name: string) {
    name in w.dirs && name in w'.dirs && w' == w.(dirs := w.dirs[name := w'.dirs[name]])
  }

  lemma OnlyDirKept(base: World, w: World, w': World, name: string, id: nat)
    requires OthersKept(base, w, name, id) && OnlyDir(w, w', name)
    ensures OthersKept(base, w', name, id)
  {
    KeptKept(base, w, w', name, id);
  }

  /** A workspace with nothing left of it but a ledger of replays. */
  ghost predicate Retired(w: World, name: string, id: nat) {
    name !in w.mem.active && id !in w.limits && name in w.dirs && !w.dirs[name].linked && w.dirs[name].owner == Root
  }

  /** At some moment since the log had a given length, nothing was charged to the project. */
  ghost predicate SawNoUsage(log: seq<World>, since: nat, id: nat) {
    exists k :: 0 <= k < |log| && since - 1 <= k && Vacant(log[k], id)
  }

  /** Neither the workspace's directory nor anything in it is charged to the project. */
  ghost predicate Vacant(w: World, id: nat) {
    var name := WorkspaceName(id);
    name in w.dirs ==> w.dirs[name].files == 0 && w.dirs[name].project != id
  }

  lemma UsageStaysSeen(log: seq<World>, log': seq<World>, since: nat, id: nat)
    requires 0 < since <= |log| && log <= log' && Usage(log[|log| - 1], id) == 0
    ensures SawNoUsage(log', since, id)
  {
    assert log'[|log| - 1] == log[|log| - 1] && Vacant(log[|log| - 1], id);
  }

  /** What an active record must still find for a restart to leave it alone. */
  predicate Healthy(w: World, name: string) {
    && name in w.mem.active && name in w.dirs && w.dirs[name].linked
    && w.dirs[name].ino == w.mem.active[name].ino
    && w.dirs[name].owner == Checkout && w.dirs[name].mode == PRIVATE
    && Applied(w, w.mem.active[name])
  }

  /** Whether a restart can finish the retirement of an unfinished record: always, except that a
      ready or offered one whose directory is present must still be under its limits. */
  predicate Retirable(w: World, name: string)
    requires name in w.mem.active
  {
    && w.mem.active[name].stage !in {Reserved, Active}
    && (w.mem.active[name].stage in {Ready, Offered} && name in w.dirs && w.dirs[name].linked ==> Applied(w, w.mem.active[name]))
  }

  /** What an uninterrupted, fault-free reconciliation makes of one record. */
  ghost predicate Reconciled(w: World, w': World, name: string)
    requires name in w.mem.active
  {
    var a := w.mem.active[name];
    match a.stage
    case Reserved => if name in w.dirs then SameAt(w, w', name, a.id) else name !in w'.mem.active
    case Active =>
      if Healthy(w, name) then SameAt(w, w', name, a.id)
      else InStage(w'.mem, name, Releasing) && name in w'.dirs && w'.dirs[name].owner == Root
    case _ =>
      if Retirable(w, name) then Retired(w', name, a.id)
      else name in w'.mem.active && w'.mem.active[name] == a && !Applied(w', a)
  }

  /** A restarted daemon: what it had on disk, and no handle of its own. */
  ghost function Back(w: World): World {
    w.(up := true, mem := w.disk, session := {})
  }

  ghost predicate ReconciledAll(w: World, w': World) {
    && w'.mem == w'.disk && w'.mem.active.Keys <= w.mem.active.Keys
    && forall n :: n in w.mem.active ==> Reconciled(w, w', n)
  }

  /** The capability and the inode of a workspace in use or on its way out. */
  ghost predicate Describes(a: Allocation, handle: Handle, dev: nat, ino: nat) {
    (a.stage == Active || a.stage == Releasing) && a.handle == handle && a.dev == dev && a.ino == ino
  }

  ghost predicate Recalls(t: Terminal, handle: Handle, dev: nat, ino: nat) {
    t.handle == handle && t.dev == dev && t.ino == ino
  }

  /** The checkout identity has the recorded directory for itself, mode 0700, under its limits. */
  ghost predicate InUse(w: World, name: string) {
    && name in w.mem.active && name in w.dirs
    && var a, d := w.mem.active[name], w.dirs[name];
       && d.linked && d.ino == a.ino && d.owner == Checkout && d.mode == 448 && d.project == a.id && a.id in w.limits
       && (a.bytes > 0 ==> Enough(w.limits[a.id].blocks, a.bytes)) && w.limits[a.id].inodes == a.inodes
  }

  /** Health is being in use; a limit of exactly so many blocks follows from there being enough. */
  lemma HealthyExactly(w: World, name: string)
    requires name in w.mem.active && w.mem.active[name].bytes > 0 && w.mem.active[name].name == name
    ensures Healthy(w, name) <==> InUse(w, name)
  {
    BlocksAreEnough(w.mem.active[name].bytes);
    if InUse(w, name) {
      EnoughIsExact(w.limits[w.mem.active[name].id].blocks, w.mem.active[name].bytes);
    }
  }

  lemma EnoughIsExact(blocks: nat, bytes: nat)
    requires bytes > 0 && Enough(blocks, bytes)
    ensures blocks == Blocks(bytes)
  {
    BlocksAreEnough(bytes);
  }

  class Service {
    const maxBytes: nat
    const maxInodes: nat
    var w: World
    ghost var log: seq<World>
    ghost var faults: nat  // system calls that failed, and disturbances

    /** A first start over an untouched namespace. */
    constructor (maxBytes: nat, maxInodes: nat, mount: Mount, uid: nat, gid: nat, floor: nat)
      requires 0 < floor < MAX_ID
      ensures Valid() && w.mem == w.disk == Ledger(mount, uid, gid, floor, map[], map[])
    {
      this.maxBytes, this.maxInodes, faults := maxBytes, maxInodes, 0;
      var l := Ledger(mount, uid, gid, floor, map[], map[]);
      w := World(true, l, l, {}, map[], map[]);
      log := [World(true, l, l, {}, map[], map[])];
      new;
      InitInv(w);
    }

    /** The log is a run of the protocol up to now. */
    ghost predicate Sound()
      reads `w, `log
    {
      IsRun(log) && log[|log| - 1] == w && Inv(w)
    }

    /** And the daemon is up. */
    ghost predicate Valid()
      reads `w, `log
    {
      Sound() && w.up
    }

    /** Valid, and only one workspace has been touched since `base`. */
    ghost predicate On(base: World, name: string, id: nat)
      reads `w, `log
    {
      Valid() && OthersKept(base, w, name, id)
    }

    // ----- effects -----

    /** Performs one effect. */
    method Take(s: Step)
      requires Sound() && Can(w, s)
      modifies `w, `log
      ensures Sound() && w == Do(old(w), s) && log == old(log) + [w]
      ensures OwnStep(old(w), s) ==> Grew(old(log), log)
    {
      hide Inv, Init, Can, Do, OwnFrom, OwnStep;
      StepInv(w, s);
      RunGrows(log, s);
      if OwnStep(w, s) {
        OwnGrows(log, s);
      }
      w := Do(w, s);
      log := log + [w];
    }

    /** A system call that may fail. */
    method Try() returns (ok: bool)
      modifies `faults
      ensures faults == old(faults) + if ok then 0 else 1
    {
      ok := *;
      if !ok {
        faults := faults + 1;
      }
    }

    /** Writes the edited ledger: success, failure without effect, or failure after the rename
        took effect. */
    method Persist(c: Change) returns (ok: bool)
      requires Valid() && Enabled(w.mem, c) && Guard(w, c)
      modifies this
      ensures old(faults) <= faults
      ensures Valid() && old(log) <= log
      ensures OwnStep(old(w), Step.Persist(c)) ==> Grew(old(log), log)
      ensures w == old(w) || w == old(w).(disk := Apply(old(w).mem, c))
      ensures ok ==> w == old(w).(disk := Apply(old(w).mem, c))
      ensures faults == old(faults) ==> ok
    {
      hide OwnFrom, Inv, Enabled, Guard, Apply;
      var renamed := Try();
      if !renamed {
        return false;
      }
      Take(Step.Persist(c));
      ok := Try();
    }

    /** Persists an edit and, on success only, adopts it. */
    method Save(c: Change) returns (ok: bool)
      requires Valid() && Enabled(w.mem, c) && Guard(w, c)
      modifies this
      ensures old(faults) <= faults
      ensures Valid() && old(log) <= log
      ensures OwnStep(old(w), Step.Persist(c)) ==> Grew(old(log), log)
      ensures w.dirs == old(w).dirs && w.limits == old(w).limits
      ensures ok ==> w.mem == w.disk == Apply(old(w).mem, c)
      ensures ok ==> w.session == (if c.Reserve? then old(w).session + {c.handle} else old(w).session)
      ensures !ok ==> w.mem == old(w).mem && w.session == old(w).session
      ensures faults == old(faults) ==> ok
    {
      hide OwnFrom, Inv, Enabled, Guard, Apply;
      ok := Persist(c);
      if ok {
        Take(Commit(c));
      }
    }

    /** Moves a record to its next stage. */
    method SaveAdvance(name: string, ghost base: World, ghost id: nat) returns (ok: bool)
      requires On(base, name, id) && name in w.mem.active
      requires w.mem.active[name].stage in {Preparing, Ready, Offered, Granting}
      requires w.mem.active[name].handle in w.session || w.mem.active[name].stage in {Offered, Granting}
      requires name in w.dirs && Applied(w, w.mem.active[name])
      requires w.mem.active[name].stage == Offered ==> w.dirs[name].owner == Root && w.dirs[name].mode == 0
      requires w.mem.active[name].stage == Granting ==> w.dirs[name].owner == Checkout && w.dirs[name].mode == PRIVATE
      modifies this
      ensures old(faults) <= faults
      ensures On(base, name, id) && old(log) <= log
      ensures old(w).mem.active[name].handle in old(w).session ==> Grew(old(log), log)
      ensures w == old(w).(mem := w.mem, disk := w.disk)
      ensures ok ==> w.disk == w.mem && w.mem == old(w).mem.(active := old(w).mem.active[name :=
        old(w).mem.active[name].(stage := Successor(old(w).mem.active[name].stage))])
      ensures !ok ==> w.mem == old(w).mem
      ensures faults == old(faults) ==> ok
    {
      hide OwnFrom, Inv, Applied, IsPruned, Handles, IsRun;
      ok := Save(Change.Advance(name));
      KeptKept(base, old(w), w, name, id);
    }

    /** Records the irreversible intent to clean up. */
    method SaveRetire(name: string, ghost base: World, ghost id: nat) returns (ok: bool)
      requires On(base, name, id) && name in w.mem.active
      requires w.mem.active[name].stage in {Offered, Granting, Active, Releasing}
      requires name in w.dirs ==> w.dirs[name].owner == Root
      modifies this
      ensures old(faults) <= faults
      ensures On(base, name, id) && Grew(old(log), log)
      ensures w == old(w).(mem := w.mem, disk := w.disk)
      ensures ok ==> w.mem == old(w).mem.(active := old(w).mem.active[name := old(w).mem.active[name].(stage := Releasing)])
      ensures !ok ==> w.mem == old(w).mem
      ensures faults == old(faults) ==> ok
      ensures faults == old(faults) && old(w).mem == old(w).disk ==> w.mem == w.disk
    {
      hide OwnFrom, Inv, Applied, IsPruned, Handles, IsRun;
      ok := Save(Change.Retire(name));
      KeptKept(base, old(w), w, name, id);
    }

    /** Replaces a retired record by its entry in the replay window. */
    method CompleteLocked(name: string, now: int, ghost base: World, ghost id: nat) returns (ok: bool)
      requires On(base, name, id) && name in w.mem.active && w.mem.active[name].stage != Reserved
      requires w.mem.active[name].stage == Releasing || w.mem.active[name].handle !in w.session
      requires name in w.dirs && !w.dirs[name].linked && w.mem.active[name].id !in w.limits && now != 0
      modifies this
      ensures old(faults) <= faults
      ensures On(base, name, id) && Grew(old(log), log)
      ensures w == old(w).(mem := w.mem, disk := w.disk)
      ensures ok ==> w.mem == old(w).mem.(active := old(w).mem.active - {name}, terminal := w.mem.terminal)
      ensures ok ==> IsPruned(WithTerminal(old(w).mem, name, now), now, w.mem.terminal)
      ensures !ok ==> w.mem == old(w).mem
      ensures faults == old(faults) ==> ok
      ensures faults == old(faults) && old(w).mem == old(w).disk ==> w.mem == w.disk
    {
      hide OwnFrom, Inv, Applied, IsPruned, Handles, IsRun;
      var kept := PruneTerminal(WithTerminal(w.mem, name, now), now);
      ok := Save(Complete(name, now, kept));
      KeptKept(base, old(w), w, name, id);
    }

    /** Gives the workspace back to root with no permission bits. */
    method RevokeWorkspace(name: string, ghost base: World, ghost id: nat) returns (ok: bool)
      requires On(base, name, id) && name in w.dirs
      modifies this
      ensures old(faults) <= faults
      ensures On(base, name, id) && Grew(old(log), log)
      ensures OnlyDir(old(w), w, name)
      ensures w.dirs[name] == old(w).dirs[name].(owner := w.dirs[name].owner, mode := w.dirs[name].mode)
      ensures ok ==> w.dirs[name].owner == Root && w.dirs[name].mode == 0
      ensures faults == old(faults) ==> ok
    {
      hide OwnFrom, Inv, Applied, IsRun, Enabled, Apply, Guard, OthersKept;
      OnlyDirKept(base, w, w, name, id);
      ok := Try();
      if ok {
        Take(Revoke(name));
        ok := Try();
      }
      if ok {
        Take(Chmod(name, 0));
        ok := Try();
      }
      OnlyDirKept(base, old(w), w, name, id);
    }

    /** A process that still holds the directory open may change what is in it. */
    method Disturb(name: string, ghost base: World, ghost id: nat)
      requires On(base, name, id) && name in w.dirs
      modifies this
      ensures old(faults) <= faults
      ensures On(base, name, id) && Grew(old(log), log)
      ensures OnlyDir(old(w), w, name) && w.dirs[name] == old(w).dirs[name].(files := w.dirs[name].files)
      ensures faults == old(faults) ==> w == old(w)
    {
      hide OwnFrom, Inv, Applied, IsRun, Enabled, Apply, Guard, OthersKept;
      var idle := Try();
      if !idle && w.dirs[name].linked {
        var files: nat := *;
        Take(Write(name, files));
      }
      OnlyDirKept(base, old(w), w, name, id);
    }

    method RemoveContents(name: string, ghost base: World, ghost id: nat) returns (ok: bool)
      requires On(base, name, id) && name in w.dirs
      modifies this
      ensures old(faults) <= faults
      ensures On(base, name, id) && Grew(old(log), log)
      ensures OnlyDir(old(w), w, name) && w.dirs[name] == old(w).dirs[name].(files := w.dirs[name].files)
      ensures faults == old(faults) ==> ok && w.dirs[name].files == 0
    {
      hide OwnFrom, Inv, Applied, IsRun, Enabled, Apply, Guard, OthersKept;
      ok := Try();
      var left: nat := 0;
      if !ok {
        left := *;
      }
      if left <= w.dirs[name].files {
        Take(Remove(name, left));
      }
      OnlyDirKept(base, old(w), w, name, id);
      Disturb(name, base, id);
    }

    method ClearProject(name: string, ghost base: World, ghost id: nat) returns (ok: bool)
      requires On(base, name, id) && name in w.dirs && w.dirs[name].owner == Root
      modifies this
      ensures old(faults) <= faults
      ensures On(base, name, id) && Grew(old(log), log)
      ensures OnlyDir(old(w), w, name) && w.dirs[name] == old(w).dirs[name].(project := w.dirs[name].project)
      ensures ok ==> w.dirs[name].project == 0
      ensures faults == old(faults) ==> ok
    {
      hide OwnFrom, Inv, Applied, IsRun, Enabled, Apply, Guard, OthersKept;
      ok := w.dirs[name].project == 0;
      if !ok {
        ok := Try();
        if ok {
          Take(SetProject(name, 0));
        }
      }
      OnlyDirKept(base, old(w), w, name, id);
    }

    method ClearQuota(name: string, id: nat, ghost base: World) returns (ok: bool)
      requires On(base, name, id) && name == WorkspaceName(id) && (name in w.dirs ==> w.dirs[name].owner == Root)
      modifies this
      ensures old(faults) <= faults
      ensures On(base, name, id) && Grew(old(log), log)
      ensures w == old(w).(limits := w.limits)
      ensures ok ==> id !in w.limits
      ensures faults == old(faults) ==> ok
    {
      hide OwnFrom, Inv, Applied, IsRun, Enabled, Apply, Guard, WorkspaceName;
      ok := Try();
      if ok {
        Take(ClearLimits(id));
        ok := Try();
      }
      KeptKept(base, old(w), w, name, id);
    }

    method UnlinkWorkspace(name: string, ghost base: World, ghost id: nat) returns (ok: bool)
      requires On(base, name, id) && name in w.dirs && w.dirs[name].owner == Root && w.dirs[name].project == 0
      requires name in w.mem.active && w.mem.active[name].stage != Reserved
      modifies this
      ensures old(faults) <= faults
      ensures On(base, name, id) && Grew(old(log), log)
      ensures OnlyDir(old(w), w, name) && w.dirs[name] == old(w).dirs[name].(linked := w.dirs[name].linked)
      ensures ok ==> !w.dirs[name].linked
      ensures faults == old(faults) && old(w).dirs[name].files == 0 ==> ok
    {
      hide OwnFrom, Inv, Applied, IsRun, Enabled, Apply, Guard, OthersKept;
      ok := !w.dirs[name].linked;
      if !ok && w.dirs[name].files == 0 {
        ok := Try();
        if ok {
          Take(Unlink(name));
        }
      }
      OnlyDirKept(base, old(w), w, name, id);
    }

    /** The tail every retirement shares: project, usage check, limits, directory entry, record. */
    method Dismantle(name: string, id: nat, now: int, ghost base: World) returns (status: Status)
      requires On(base, name, id) && now != 0
      requires name in w.mem.active && w.mem.active[name].stage != Reserved
      requires w.mem.active[name].id == id && name == WorkspaceName(id) && id > 0
      requires w.mem.active[name].stage == Releasing || w.mem.active[name].handle !in w.session
      requires name in w.dirs && w.dirs[name].owner == Root
      modifies this
      ensures old(faults) <= faults
      ensures On(base, name, id) && Grew(old(log), log)
      ensures w.session == old(w).session && w.mem.next == old(w).mem.next
      ensures status == Ok ==> Retired(w, name, id) && IsPruned(WithTerminal(old(w).mem, name, now), now, w.mem.terminal)
      ensures status != Ok ==> w.mem == old(w).mem && name in w.dirs && w.dirs[name].owner == Root
      ensures status in {Ok, Unavailable, Retryable}
      ensures id in old(w).limits && id !in w.limits ==> SawNoUsage(log, |old(log)|, id)
      ensures faults == old(faults) && old(w).dirs[name].files == 0 ==> status == Ok
      ensures faults == old(faults) && old(w).mem == old(w).disk ==> w.mem == w.disk
    {
      hide OwnFrom, Inv, Applied, IsRun, Enabled, Apply, Guard, WorkspaceName, OthersKept, IsPruned, Valid, SawNoUsage;
      LastIsNow();
      var ok := ClearProject(name, base, id);
      if !ok {
        return Unavailable;
      }
      Disturb(name, base, id);
      ok := Try();
      if !ok || Usage(w, id) != 0 {
        return Retryable;
      }
      LastIsNow();
      ghost var sofar := log;
      status := RemoveRecord(name, id, now, base);
      UsageStaysSeen(sofar, log, |old(log)|, id);
    }

    lemma LastIsNow()
      requires Valid()
      ensures log != [] && log[|log| - 1] == w
    {
      hide Inv;
    }

    /** Limits, directory entry and record, once nothing is charged any more. */
    method RemoveRecord(name: string, id: nat, now: int, ghost base: World) returns (status: Status)
      requires On(base, name, id) && now != 0
      requires name in w.mem.active && w.mem.active[name].stage != Reserved
      requires w.mem.active[name].id == id && name == WorkspaceName(id) && id > 0
      requires w.mem.active[name].stage == Releasing || w.mem.active[name].handle !in w.session
      requires name in w.dirs && w.dirs[name].owner == Root && w.dirs[name].project == 0
      modifies this
      ensures old(faults) <= faults
      ensures On(base, name, id) && Grew(old(log), log)
      ensures w.session == old(w).session && w.mem.next == old(w).mem.next
      ensures status == Ok ==> Retired(w, name, id) && IsPruned(WithTerminal(old(w).mem, name, now), now, w.mem.terminal)
      ensures status != Ok ==> w.mem == old(w).mem && name in w.dirs && w.dirs[name].owner == Root
      ensures status in {Ok, Unavailable}
      ensures faults == old(faults) && old(w).dirs[name].files == 0 ==> status == Ok
      ensures faults == old(faults) && old(w).mem == old(w).disk ==> w.mem == w.disk
    {
      hide OwnFrom, Inv, Applied, IsRun, Enabled, Apply, Guard, WorkspaceName, OthersKept, IsPruned, Valid;
      var ok := ClearQuota(name, id, base);
      if !ok {
        return Unavailable;
      }
      Disturb(name, base, id);
      ok := UnlinkWorkspace(name, base, id);
      if !ok {
        return Unavailable;
      }
      ok := CompleteLocked(name, now, base, id);
      status := if ok then Ok else Unavailable;
    }

    /** Cleanup of a releasing record behind a verified descriptor. */
    method CleanupLocked(name: string, id: nat, now: int, ghost base: World) returns (status: Status)
      requires On(base, name, id) && now != 0
      requires InStage(w.mem, name, Releasing)
      requires w.mem.active[name].id == id && name == WorkspaceName(id) && id > 0
      requires name in w.dirs && w.dirs[name].owner == Root
      modifies this
      ensures old(faults) <= faults
      ensures On(base, name, id) && Grew(old(log), log)
      ensures w.session == old(w).session && w.mem.next == old(w).mem.next
      ensures status == Ok ==> Retired(w, name, id) && IsPruned(WithTerminal(old(w).mem, name, now), now, w.mem.terminal)
      ensures status != Ok ==> w.mem == old(w).mem && name in w.dirs && w.dirs[name].owner == Root
      ensures status !in {Completed, Invalid}
      ensures old(w).dirs[name].mode != 0 || old(w).dirs[name].ino != old(w).mem.active[name].ino ==> status == Denied && w == old(w)
      ensures id in old(w).limits && id !in w.limits ==> SawNoUsage(log, |old(log)|, id)
      ensures faults == old(faults) && old(w).dirs[name].mode == 0 && old(w).dirs[name].ino == old(w).mem.active[name].ino ==> status == Ok
    {
      hide OwnFrom, Inv, Applied, IsRun, Enabled, Apply, Guard, WorkspaceName, OthersKept, IsPruned, Valid;
      var ok := Try();
      if !ok || w.dirs[name].ino != w.mem.active[name].ino || w.dirs[name].mode != 0 {
        return Denied;
      }
      ok := RemoveContents(name, base, id);
      if !ok {
        var limited: bool := *;
        return if limited then Retryable else Denied;
      }
      if w.dirs[name].files != 0 {
        return Retryable;
      }
      status := Dismantle(name, id, now, base);
    }

    // ----- operations -----

    predicate ValidLimits(bytes: nat, inodes: nat) {
      bytes != 0 && inodes > 0 && bytes <= maxBytes && inodes <= maxInodes
    }

    /** The project may use the given bytes, in whole blocks, and inodes, and no more. */
    ghost predicate Limited(id: nat, bytes: nat, inodes: nat)
      reads `w, `log
    {
      id in w.limits && Enough(w.limits[id].blocks, bytes) && w.limits[id].inodes == inodes
    }

    /** An offered workspace: root-only, empty, and already under its limits. */
    ghost predicate Offer(fd: string, id: nat, bytes: nat, inodes: nat, handle: Handle)
      reads `w, `log
    {
      && InStage(w.mem, fd, Offered) && fd in w.dirs && handle in w.session
      && w.mem.active[fd] == Allocation(id, WorkspaceName(id), handle, w.mem.mount.dev, w.dirs[fd].ino, bytes, inodes, Offered)
      && Applied(w, w.mem.active[fd])
      && w.dirs[fd] == Dir(w.dirs[fd].ino, true, Root, 0, id, 0)
    }

    method SaveReserve(id: nat, handle: Handle, bytes: nat, inodes: nat) returns (ok: bool)
      requires Valid() && id == w.mem.next && 0 < id < MAX_ID && bytes != 0 && inodes != 0
      requires handle != 0 && handle !in Handles(w.mem)
      modifies this
      ensures old(faults) <= faults
      ensures On(old(w), WorkspaceName(id), id) && Grew(old(log), log)
      ensures w.dirs == old(w).dirs && w.limits == old(w).limits
      ensures ok ==> w.session == old(w).session + {handle} && w.mem == old(w).mem.(next := id + 1, active :=
        old(w).mem.active[WorkspaceName(id) :=
          Allocation(id, WorkspaceName(id), handle, 0, 0, bytes, inodes, Reserved)])
      ensures !ok ==> w.mem == old(w).mem && w.session == old(w).session
      ensures faults == old(faults) ==> ok
    {
      hide OwnFrom, Inv, Applied, IsPruned, Handles, IsRun, WorkspaceName;
      ok := Save(Reserve(id, handle, bytes, inodes));
    }

    method SaveCapture(name: string, ino: nat, ghost base: World, ghost id: nat) returns (ok: bool)
      requires On(base, name, id) && InStage(w.mem, name, Reserved) && w.mem.active[name].handle in w.session
      requires name in w.dirs && w.dirs[name].ino == ino && ino != 0
      modifies this
      ensures old(faults) <= faults
      ensures On(base, name, id) && Grew(old(log), log)
      ensures w == old(w).(mem := w.mem, disk := w.disk)
      ensures ok ==> w.mem == old(w).mem.(active := old(w).mem.active[name :=
        old(w).mem.active[name].(dev := w.mem.mount.dev, ino := ino, stage := Preparing)])
      ensures !ok ==> w.mem == old(w).mem
      ensures faults == old(faults) ==> ok
    {
      hide OwnFrom, Inv, Applied, IsPruned, Handles, IsRun;
      ok := Save(Capture(name, ino));
      KeptKept(base, old(w), w, name, id);
    }

    method MakeDirectory(name: string, ino: nat, ghost base: World, ghost id: nat) returns (ok: bool)
      requires On(base, name, id) && InStage(w.mem, name, Reserved) && w.mem.active[name].handle in w.session
      requires name !in w.dirs && ino != 0 && forall n :: n in w.dirs ==> w.dirs[n].ino != ino
      modifies this
      ensures old(faults) <= faults
      ensures On(base, name, id) && Grew(old(log), log)
      ensures ok ==> w == old(w).(dirs := old(w).dirs[name := Dir(ino, true, Root, 0, 0, 0)])
      ensures !ok ==> w == old(w)
      ensures faults == old(faults) ==> ok
    {
      hide OwnFrom, Inv, Applied, IsRun, Enabled, Apply, Guard;
      ok := Try();
      if ok {
        Take(Mkdir(name, ino));
      }
      KeptKept(base, old(w), w, name, id);
    }

    /** Tags the directory with its project and enforces its limits. */
    method ApplyLimits(name: string, ghost base: World, ghost id: nat) returns (ok: bool)
      requires On(base, name, id) && InStage(w.mem, name, Preparing) && w.mem.active[name].handle in w.session
      requires w.mem.active[name].id == id && w.mem.active[name].name == name
      requires name in w.dirs && w.dirs[name].linked && w.dirs[name].owner == Root
      modifies this
      ensures old(faults) <= faults
      ensures On(base, name, id) && Grew(old(log), log)
      ensures w.mem == old(w).mem && w.session == old(w).session
      ensures ok ==> w.dirs == old(w).dirs[name := old(w).dirs[name].(project := id)]
      ensures ok ==> Applied(w, w.mem.active[name])
      ensures ok && w.mem.active[name].bytes > 0 ==> Limited(id, w.mem.active[name].bytes, w.mem.active[name].inodes)
      ensures faults == old(faults) ==> ok
    {
      hide OwnFrom, Inv, IsRun, Enabled, Apply, Guard;
      ok := Try();
      if !ok {
        return;
      }
      Take(SetProject(name, w.mem.active[name].id));
      ok := Try();
      if ok {
        Take(SetLimits(name));
        ok := Try();  // verifyApplied
      }
      BlocksAreEnough(w.mem.active[name].bytes);
      KeptKept(base, old(w), w, name, id);
    }

    /** Reserves an ID, builds a root-only workspace under enforced limits and offers it. `handle`
        is the fresh random capability, `ino` the inode number the file system picks. */
    method Allocate(bytes: nat, inodes: nat, handle: Handle, ino: nat) returns (status: Status, id: nat, fd: string)
      requires Valid()
      requires handle != 0 && handle !in Handles(w.mem)
      requires ino != 0 && forall n :: n in w.dirs ==> w.dirs[n].ino != ino
      modifies this
      ensures old(faults) <= faults
      ensures On(old(w), WorkspaceName(old(w).mem.next), old(w).mem.next) && Grew(old(log), log)
      ensures w.mem.next == old(w).mem.next || w.mem.next == old(w).mem.next + 1
      ensures status == Ok ==> fd == WorkspaceName(id) && Offer(fd, id, bytes, inodes, handle)
      ensures status == Ok ==> id == old(w).mem.next && w.mem.next == id + 1
      ensures status == Ok ==> 0 < bytes <= maxBytes && 0 < inodes <= maxInodes && Limited(id, bytes, inodes)
      ensures !InStage(w.mem, WorkspaceName(old(w).mem.next), Active)
      ensures status == Invalid <==> !(0 < bytes <= maxBytes && 0 < inodes <= maxInodes)
      ensures status in {Ok, Invalid, Unavailable} && (status == Invalid ==> w == old(w))
      ensures old(w).mem.next == MAX_ID ==> status != Ok && w == old(w)
      ensures faults == old(faults) && 0 < bytes <= maxBytes && 0 < inodes <= maxInodes && old(w).mem.next < MAX_ID ==> status == Ok
    {
      hide OwnFrom, Inv, IsRun, Enabled, Apply, Guard, WorkspaceName, OthersKept, IsPruned, Handles, Ledgers, AheadOne, ValidLedger;
      id, fd := w.mem.next, WorkspaceName(w.mem.next);
      AllocateStart(w);
      NewIsNotActive(w);
      if !ValidLimits(bytes, inodes) {
        return Invalid, id, fd;
      }
      if id == 0 || id == MAX_ID {
        return Unavailable, id, fd;
      }
      var ok := SaveReserve(id, handle, bytes, inodes);
      if !ok {
        return Unavailable, id, fd;
      }
      ok := MakeDirectory(fd, ino, old(w), id);
      if !ok {
        return Unavailable, id, fd;
      }
      status := FinishOffer(fd, id, ino, old(w));
      BlocksAreEnough(bytes);
    }

    method FinishOffer(fd: string, id: nat, ino: nat, ghost base: World) returns (status: Status)
      requires On(base, fd, id) && InStage(w.mem, fd, Reserved) && fd == WorkspaceName(id) && ino != 0
      requires w.mem.active[fd].handle in w.session && w.mem.active[fd].id == id && w.mem.active[fd].name == fd
      requires fd in w.dirs && w.dirs[fd] == Dir(ino, true, Root, 0, 0, 0)
      modifies this
      ensures old(faults) <= faults
      ensures On(base, fd, id) && Grew(old(log), log)
      ensures w.mem.next == old(w).mem.next
      ensures status == Ok ==> Offer(fd, id, old(w).mem.active[fd].bytes, old(w).mem.active[fd].inodes, old(w).mem.active[fd].handle)
      ensures status in {Ok, Unavailable} && !InStage(w.mem, fd, Active)
      ensures faults == old(faults) ==> status == Ok
    {
      hide OwnFrom, Inv, IsRun, Enabled, Apply, Guard, WorkspaceName, OthersKept, IsPruned, Handles, Valid;
      var ok := SaveCapture(fd, ino, base, id);
      if !ok {
        return Unavailable;
      }
      ok := ApplyLimits(fd, base, id);
      if !ok {
        return Unavailable;
      }
      ok := SaveAdvance(fd, base, id);
      if !ok {
        return Unavailable;
      }
      ok := SaveAdvance(fd, base, id);
      status := if ok then Ok else Unavailable;
    }

    /** The record of a capability, if it is in one of the given stages. */
    method FindRecord(handle: Handle, stages: set<Stage>) returns (found: bool, name: string)
      ensures found ==> name in w.mem.active && w.mem.active[name].handle == handle && w.mem.active[name].stage in stages
      ensures !found ==> forall n :: n in w.mem.active && w.mem.active[n].handle == handle ==> w.mem.active[n].stage !in stages
    {
      found, name := false, "";
      var todo := w.mem.active.Keys;
      while todo != {}
        invariant todo <= w.mem.active.Keys
        invariant found ==> name in w.mem.active && w.mem.active[name].handle == handle && w.mem.active[name].stage in stages
        invariant !found ==> forall n :: n in w.mem.active && n !in todo && w.mem.active[n].handle == handle ==>
          w.mem.active[n].stage !in stages
        decreases |todo|
      {
        var n :| n in todo;
        todo := todo - {n};
        if w.mem.active[n].handle == handle && w.mem.active[n].stage in stages {
          found, name := true, n;
        }
      }
    }

    /** The recovery query for a lost final reply: never a transition. */
    method ActiveAckStatus(handle: Handle) returns (status: Status)
      ensures status == Ok <==> exists n :: InStage(w.mem, n, Active) && w.mem.active[n].handle == handle
      ensures status in {Ok, Denied}
    {
      var found, name := FindRecord(handle, {Active});
      if found {
        assert InStage(w.mem, name, Active);
      }
      status := if found then Ok else Denied;
    }

    /** Takes an offer back: revoke first, then record the intent, then clean up. */
    method WithdrawOffer(fd: string, handle: Handle, now: int, ghost base: World, ghost id: nat) returns (status: Status)
      requires On(base, fd, id) && now != 0 && fd in w.dirs
      requires forall n :: n in w.mem.active && w.mem.active[n].handle == handle ==> n == fd
      requires fd in w.mem.active ==> w.mem.active[fd].id == id
      modifies this
      ensures old(faults) <= faults
      ensures On(base, fd, id) && Grew(old(log), log)
      ensures status == Ok ==> Retired(w, fd, id)
      ensures status == Ok ==> InStage(old(w).mem, fd, Offered) || InStage(old(w).mem, fd, Granting)
      ensures InStage(w.mem, fd, Active) ==> w.mem == old(w).mem
      ensures (faults == old(faults) && fd in old(w).mem.active && old(w).mem.active[fd].handle == handle
        && old(w).mem.active[fd].stage in {Offered, Granting}) ==> status == Ok
    {
      hide OwnFrom, Inv, IsRun, Enabled, Apply, Guard, WorkspaceName, OthersKept, IsPruned, Handles, Ledgers, Applied;
      var found, name := FindRecord(handle, {Offered, Granting});
      if !found {
        return Denied;
      }
      FromInv(w, fd);
      var ok := RevokeWorkspace(fd, base, id);
      if !ok {
        return Unavailable;
      }
      ok := SaveRetire(fd, base, id);
      if !ok {
        return Unavailable;
      }
      status := CleanupLocked(fd, w.mem.active[fd].id, now, base);
    }

    /** Turns an offer into an active workspace, or takes it back. */
    method Ack(handle: Handle, now: int) returns (status: Status, name: string, id: nat)
      requires Valid() && now != 0
      modifies this
      ensures old(faults) <= faults
      ensures On(old(w), name, id) && old(log) <= log
      ensures handle in old(w).session ==> Grew(old(log), log)
      ensures status == Ok ==> Healthy(w, name) && InStage(w.mem, name, Active) && w.mem.active[name].handle == handle
      ensures status == Ok ==> InStage(old(w).mem, name, Offered) && InUse(w, name)
      ensures status != Ok ==> !InStage(w.mem, name, Active)
      ensures (forall n :: n in old(w).mem.active && old(w).mem.active[n].handle == handle ==>
        old(w).mem.active[n].stage != Offered) ==> status in {Invalid, Denied} && w == old(w)
      ensures forall n :: handle != 0 && InStage(old(w).mem, n, Offered) && old(w).mem.active[n].handle == handle ==>
        name == n && id == old(w).mem.active[n].id
      ensures status == Invalid <==> handle == 0
      ensures faults <= old(faults) + 1 && status != Ok ==> (w.mem == old(w).mem && w.dirs == old(w).dirs) || Retired(w, name, id)
      ensures faults == old(faults) && status != Ok ==> w == old(w)
      ensures faults == old(faults) && handle != 0 && InStage(old(w).mem, name, Offered) && old(w).mem.active[name].handle == handle ==>
        (status == Ok <==> old(Grantable(w, name)))
    {
      hide OwnFrom, Inv, IsRun, Enabled, Apply, Guard, WorkspaceName, OthersKept, IsPruned, Handles, Ledgers;
      name, id := "", 0;
      SelfKept(w, name, id);
      NoEmptyName(w);
      if handle == 0 {
        return Invalid, name, id;
      }
      var found, n := FindRecord(handle, {Offered});
      if !found {
        return Denied, name, id;
      }
      name, id := n, w.mem.active[n].id;
      FromInv(w, name);
      HandleIsUnique(w, name);
      SelfKept(w, name, id);
      var ok := Try();
      if !ok || !Grantable(w, name) {
        return Denied, name, id;
      }
      ok := SaveAdvance(name, old(w), id);
      if !ok {
        return Unavailable, name, id;
      }
      status := GrantAccess(name, old(w), id);
      if status == Ok {
        ok := SaveAdvance(name, old(w), id);
        status := if ok then Ok else Unavailable;
      }
      BlocksAreEnough(w.mem.active[name].bytes);
      if status != Ok {
        HandleIsUnique(w, name);
        var _ := WithdrawOffer(name, handle, now, old(w), id);
      }
    }

    method GrantAccess(name: string, ghost base: World, ghost id: nat) returns (status: Status)
      requires On(base, name, id) && InStage(w.mem, name, Granting) && w.disk == w.mem
      requires name in w.dirs && w.dirs[name].linked && Applied(w, w.mem.active[name])
      modifies this
      ensures old(faults) <= faults
      ensures On(base, name, id) && Grew(old(log), log) && OnlyDir(old(w), w, name)
      ensures status == Ok ==> w.dirs[name] == old(w).dirs[name].(owner := Checkout, mode := PRIVATE)
      ensures status in {Ok, Unavailable, Denied}
      ensures faults == old(faults) ==> status == Ok
    {
      hide OwnFrom, Inv, Applied, IsRun, Enabled, Apply, Guard, OthersKept;
      status := Unavailable;
      var ok := Try();
      if ok {
        Take(Grant(name));
        ok := Try();
      }
      if ok {
        Take(Chmod(name, PRIVATE));
        ok := Try();  // verifyRecordFD
        status := if ok then Ok else Denied;
      }
      OnlyDirKept(base, old(w), w, name, id);
    }

    /** What other connections do in between: any effects that leave this workspace alone, each
        acknowledging only its own offer. */
    method Others(script: seq<Step>, name: string, id: nat)
      requires Valid() && name in w.mem.active && w.mem.active[name].id == id
      modifies `w, `log
      ensures Valid() && Grew(old(log), log) && SameAt(old(w), w, name, id) && old(w).session <= w.session
    {
      hide OwnFrom, Inv, IsRun, Permitted, Do, SameAt, WorkspaceName;
      var i := 0;
      SameSelf(w, name, id);
      while i < |script|
        invariant Valid() && Grew(old(log), log) && SameAt(old(w), w, name, id) && old(w).session <= w.session
        invariant name in w.mem.active && w.mem.active[name].id == id
        decreases |script| - i
      {
        if Permitted(w, script[i]) && OwnStep(w, script[i]) && !Touches(w, script[i], name, id) {
          OtherStep(w, script[i], name, id);
          SameSame(old(w), w, Do(w, script[i]), name, id);
          Take(script[i]);
        }
        i := i + 1;
      }
    }

    /** The two-message transaction: an offer that cannot be sent, or is not acknowledged properly
        on the same connection, is taken back; it never stays behind as an active workspace. Between
        the two messages other connections are served. */
    method HandleAllocateConn(bytes: nat, inodes: nat, handle: Handle, ino: nat, sent: bool, acknowledged: bool, now: int,
                              others: seq<Step>)
      returns (status: Status)
      requires Valid() && now != 0
      requires handle != 0 && handle !in Handles(w.mem)
      requires ino != 0 && forall n :: n in w.dirs ==> w.dirs[n].ino != ino
      modifies this
      ensures old(faults) <= faults
      ensures Valid() && Grew(old(log), log)
      ensures var name := WorkspaceName(old(w).mem.next);
        InStage(w.mem, name, Active) ==> sent && acknowledged && status == Ok && Healthy(w, name)
      ensures var name := WorkspaceName(old(w).mem.next);
        (faults == old(faults) && 0 < bytes <= maxBytes && 0 < inodes <= maxInodes && old(w).mem.next < MAX_ID) ==>
          if sent && acknowledged then status == Ok && InStage(w.mem, name, Active) && Healthy(w, name)
          else Retired(w, name, old(w).mem.next)
    {
      hide OwnFrom, Inv, IsRun, Enabled, Apply, Guard, WorkspaceName, OthersKept, IsPruned, Handles, Ledgers, Applied;
      var id, fd;
      status, id, fd := Allocate(bytes, inodes, handle, ino);
      if status != Ok {
        return;
      }
      ghost var offered := w;
      Others(others, fd, id);
      StillOffered(offered, w, fd, id);
      HandleIsUnique(w, fd);
      SelfKept(w, fd, id);
      status := Conclude(fd, id, handle, sent && acknowledged, now, w);
    }

    method Conclude(fd: string, id: nat, handle: Handle, acknowledged: bool, now: int, ghost base: World) returns (status: Status)
      requires On(base, fd, id) && now != 0 && handle != 0 && handle in w.session && Grantable(w, fd)
      requires w.mem.active[fd].handle == handle && w.mem.active[fd].id == id
      requires forall n :: n in w.mem.active && w.mem.active[n].handle == handle ==> n == fd
      modifies this
      ensures old(faults) <= faults
      ensures On(base, fd, id) && Grew(old(log), log)
      ensures InStage(w.mem, fd, Active) ==> acknowledged && status == Ok && Healthy(w, fd)
      ensures faults == old(faults) ==> if acknowledged then status == Ok && InStage(w.mem, fd, Active) else Retired(w, fd, id)
    {
      hide OwnFrom, Inv, IsRun, Enabled, Apply, Guard, WorkspaceName, OthersKept, IsPruned, Handles, Ledgers, Applied;
      if !acknowledged {
        status := WithdrawOffer(fd, handle, now, base, id);
        return;
      }
      var name, number;
      status, name, number := Ack(handle, now);
      assert name == fd && number == id;
      KeptKept(base, old(w), w, fd, id);
    }

    /** Whether a record is the one a release request means: its capability and its inode. */
    predicate Matches(name: string, handle: Handle, dev: nat, ino: nat)
      reads `w, `log
    {
      && name in w.mem.active && w.mem.active[name].handle == handle
      && w.mem.active[name].dev == dev && w.mem.active[name].ino == ino
      && w.mem.active[name].stage in {Active, Releasing}
    }

    /** Whether the replay window remembers the release of this capability and inode. */
    predicate Remembers(handle: Handle, dev: nat, ino: nat)
      reads `w, `log
    {
      var k := Digest(handle);
      k in w.mem.terminal && w.mem.terminal[k].handle == handle && w.mem.terminal[k].dev == dev && w.mem.terminal[k].ino == ino
    }

    /** Releases the workspace behind the caller's descriptor, of which `fstat` says (dev, ino). */
    method Release(dev: nat, ino: nat, handle: Handle, now: int) returns (status: Status, name: string, id: nat)
      requires Valid() && now != 0
      modifies this
      ensures old(faults) <= faults
      ensures On(old(w), name, id) && Grew(old(log), log)
      ensures handle == 0 ==> status == Invalid && w == old(w)
      ensures status == Ok ==> old(Matches(name, handle, dev, ino)) && Retired(w, name, id)
      ensures status == Ok ==> Describes(old(w).mem.active[name], handle, dev, ino) && old(w).mem.active[name].id == id
      ensures status == Ok ==> name !in w.mem.active && id !in w.limits && name in w.dirs && !w.dirs[name].linked && w.dirs[name].owner == Root
      ensures status == Completed ==> exists k :: k in old(w).mem.terminal && Recalls(old(w).mem.terminal[k], handle, dev, ino)
      ensures status == Ok ==> IsPruned(WithTerminal(old(w).mem, name, now), now, w.mem.terminal)
      ensures status == Completed ==> old(Remembers(handle, dev, ino))
      ensures handle != 0 && (forall n :: !old(Matches(n, handle, dev, ino))) ==>
        w == old(w) && status == if old(Remembers(handle, dev, ino)) then Completed else Denied
      ensures faults == old(faults) && handle != 0 && (exists n :: old(Matches(n, handle, dev, ino))) ==> status == Ok
      ensures forall n :: faults == old(faults) && handle != 0 && n in old(w).mem.active && Describes(old(w).mem.active[n], handle, dev, ino) ==>
        status == Ok && name == n
      ensures status != Ok ==> InStage(w.mem, name, Active) ==> InStage(old(w).mem, name, Active)
    {
      hide OwnFrom, Inv, IsRun, Enabled, Apply, Guard, WorkspaceName, OthersKept, IsPruned, Handles, Ledgers, Applied;
      name, id := "", 0;
      SelfKept(w, name, id);
      NoEmptyName(w);
      if handle == 0 {
        return Invalid, name, id;
      }
      var found, n := FindRecord(handle, {Active, Releasing});
      if found {
        HandleIsUnique(w, n);
      }
      if !found || !Matches(n, handle, dev, ino) {
        status := if Remembers(handle, dev, ino) then Completed else Denied;
        return;
      }
      name, id := n, w.mem.active[n].id;
      FromInv(w, name);
      SelfKept(w, name, id);
      status := ReleaseRecord(name, id, now);
    }

    method ReleaseRecord(name: string, id: nat, now: int) returns (status: Status)
      requires Valid() && now != 0 && name in w.mem.active && w.mem.active[name].stage in {Active, Releasing}
      requires w.mem.active[name].id == id && name == WorkspaceName(id) && id > 0
      requires name in w.dirs && w.dirs[name].ino == w.mem.active[name].ino
      modifies this
      ensures old(faults) <= faults
      ensures On(old(w), name, id) && Grew(old(log), log)
      ensures status == Ok ==> Retired(w, name, id)
      ensures status == Ok ==> IsPruned(WithTerminal(old(w).mem, name, now), now, w.mem.terminal)
      ensures status !in {Completed, Invalid}
      ensures InStage(w.mem, name, Active) ==> InStage(old(w).mem, name, Active)
      ensures faults == old(faults) ==> status == Ok
    {
      hide OwnFrom, Inv, IsRun, Enabled, Apply, Guard, WorkspaceName, OthersKept, IsPruned, Handles, Applied, Valid;
      SelfKept(w, name, id);
      var ok := RevokeWorkspace(name, old(w), id);
      if !ok {
        return Unavailable;
      }
      ok := Try();  // verifyWorkspaceFD
      if !ok {
        return Denied;
      }
      ok := SaveRetire(name, old(w), id);
      if !ok {
        return Unavailable;
      }
      SameReplay(old(w).mem, w.mem.active, name, now);
      status := CleanupLocked(name, id, now, old(w));
    }

    // ----- reconciliation -----

    /** One record of the ledger a restart read back. */
    method ReconcileRecord(name: string, now: int) returns (ok: bool)
      requires Valid() && now != 0 && name in w.mem.active && w.session == {}
      modifies this
      ensures old(faults) <= faults
      ensures On(old(w), name, old(w).mem.active[name].id) && Grew(old(log), log) && w.session == {}
      ensures faults == old(faults) ==> ok && Reconciled(old(w), w, name)
      ensures faults == old(faults) && old(w).mem == old(w).disk ==> w.mem == w.disk
    {
      hide OwnFrom, Inv, IsRun, Enabled, Apply, Guard, WorkspaceName, OthersKept, IsPruned, Handles, Ledgers, Applied;
      ghost var id := w.mem.active[name].id;
      FromInv(w, name);
      SelfKept(w, name, id);
      ok := true;
      match w.mem.active[name].stage {
        case Reserved =>
          ReconcileReserved(name);
        case Active =>
          ok := ReconcileActive(name);
        case _ =>
          ok := ReconcileUnfinished(name, now);
      }
    }

    method ReconcileReserved(name: string)
      requires Valid() && InStage(w.mem, name, Reserved) && w.session == {}
      modifies this
      ensures old(faults) <= faults
      ensures On(old(w), name, old(w).mem.active[name].id) && Grew(old(log), log)
      ensures w == old(w).(mem := w.mem, disk := w.disk)
      ensures name in w.dirs ==> w == old(w)
      ensures faults == old(faults) && name !in w.dirs ==> name !in w.mem.active
      ensures faults == old(faults) && old(w).mem == old(w).disk ==> w.mem == w.disk
    {
      hide OwnFrom, Inv, IsRun, WorkspaceName, IsPruned, Handles;
      if name !in w.dirs {
        var ok := Save(Drop(name));
      }
    }

    method ReconcileActive(name: string) returns (ok: bool)
      requires Valid() && InStage(w.mem, name, Active)
      modifies this
      ensures old(faults) <= faults
      ensures On(old(w), name, old(w).mem.active[name].id) && Grew(old(log), log) && w.session == old(w).session
      ensures old(Healthy(w, name)) && faults == old(faults) ==> w == old(w)
      ensures faults == old(faults) ==> ok
      ensures faults == old(faults) && !old(Healthy(w, name)) ==> InStage(w.mem, name, Releasing) && name in w.dirs && w.dirs[name].owner == Root
      ensures faults == old(faults) && old(w).mem == old(w).disk ==> w.mem == w.disk
    {
      hide OwnFrom, Inv, IsRun, Enabled, Apply, Guard, WorkspaceName, OthersKept, IsPruned, Handles, Ledgers, Applied;
      ghost var id := w.mem.active[name].id;
      FromInv(w, name);
      SelfKept(w, name, id);
      ok := Try();
      if ok && Healthy(w, name) {
        return;
      }
      if w.dirs[name].linked {
        ok := RevokeWorkspace(name, old(w), id);
        if !ok {
          return;
        }
      }
      ok := SaveRetire(name, old(w), id);
      ok := true;
    }

    /** A record that was on its way up or down: retired, whatever its retirement had reached. */
    method ReconcileUnfinished(name: string, now: int) returns (ok: bool)
      requires Valid() && now != 0 && name in w.mem.active && w.session == {}
      requires w.mem.active[name].stage !in {Reserved, Active}
      modifies this
      ensures old(faults) <= faults
      ensures On(old(w), name, old(w).mem.active[name].id) && Grew(old(log), log) && w.session == {}
      ensures faults == old(faults) ==> ok
      ensures faults == old(faults) && old(Retirable(w, name)) ==> Retired(w, name, old(w).mem.active[name].id)
      ensures faults == old(faults) && !old(Retirable(w, name)) ==> w.mem == old(w).mem && !Applied(w, w.mem.active[name])
      ensures faults == old(faults) && old(w).mem == old(w).disk ==> w.mem == w.disk
    {
      hide OwnFrom, Inv, IsRun, Enabled, Apply, Guard, WorkspaceName, OthersKept, IsPruned, Handles, Ledgers;
      var id := w.mem.active[name].id;
      FromInv(w, name);
      SelfKept(w, name, id);
      if w.dirs[name].linked {
        ok := RevokeWorkspace(name, old(w), id);
        if !ok {
          return;
        }
        ok := RemoveContents(name, old(w), id);
        if !ok || w.dirs[name].files != 0 {
          return true;
        }
        if w.mem.active[name].stage in {Ready, Offered} && !Applied(w, w.mem.active[name]) {
          return true;
        }
      }
      ok := true;
      var _ := Dismantle(name, id, now, old(w));
    }

    /** The new process goes over every record it read back. Without faults nothing is left half
        done, and what was healthy or unprovable is untouched. */
    method Reconcile(now: int) returns (ok: bool)
      requires Valid() && now != 0 && w.session == {}
      modifies this
      ensures old(faults) <= faults
      ensures Valid() && Grew(old(log), log) && w.session == {}
      ensures w.mem.active.Keys <= old(w).mem.active.Keys
      ensures faults == old(faults) ==> ok && forall n :: n in old(w).mem.active ==> Reconciled(old(w), w, n)
      ensures faults == old(faults) && old(w).mem == old(w).disk ==> w.mem == w.disk
    {
      hide OwnFrom, Inv, IsRun, Enabled, Apply, Guard, WorkspaceName, OthersKept, IsPruned, Handles, Ledgers, Applied, Reconciled, SameAt;
      var todo := w.mem.active.Keys;
      ghost var w0 := w;
      AllSame(w0);
      ok := true;
      while todo != {} && ok
        invariant Valid() && Grew(old(log), log) && w.session == {} && todo <= w0.mem.active.Keys && old(faults) <= faults
        invariant w.mem.active.Keys <= w0.mem.active.Keys && (faults == old(faults) && w0.mem == w0.disk ==> w.mem == w.disk)
        invariant forall n :: n in todo ==> SameAt(w0, w, n, w0.mem.active[n].id)
        invariant faults == old(faults) ==> ok && forall n :: n in w0.mem.active && n !in todo ==> Reconciled(w0, w, n)
        decreases |todo|
      {
        var name :| name in todo;
        todo := todo - {name};
        ghost var w1 := w;
        StillThere(w0, w1, name);
        FromInv(w0, name);
        ok := ReconcileRecord(name, now);
        KeysKept(w1, w, name, w0.mem.active[name].id);
        OneReconciled(w0, w1, w, name, faults == old(faults));
        OthersReconciled(w0, w1, w, name, todo, faults == old(faults));
      }
    }

    /** A new process, after a crash in any state or over a ledger left behind: it reads the ledger
        back, refuses one that is too long or not its own, and otherwise brings everything the
        ledger says to an end. */
    method New(now: int, mount: Mount, uid: nat, gid: nat) returns (ok: bool)
      requires Sound() && now != 0
      modifies this
      ensures old(faults) <= faults
      ensures Sound() && Grew(old(log), log) && (ok ==> Valid())
      ensures !Fits(old(w).disk) ==> !ok && !w.up && w.disk == old(w).disk
      ensures ok ==> old(w).disk.mount == mount && old(w).disk.checkoutUID == uid && old(w).disk.checkoutGID == gid
      ensures faults == old(faults) ==> (ok <==> Load(old(w).disk, mount, uid, gid).Some?)
      ensures faults == old(faults) && Ledger(mount, uid, gid, 0, map[], map[]) == old(w).disk.(next := 0, active := map[], terminal := map[]) ==>
        (ok <==> Fits(old(w).disk))
      ensures faults == old(faults) && ok ==> forall n :: n in old(w).disk.active ==> Reconciled(Back(old(w)), w, n)
      ensures faults == old(faults) && ok ==> forall n :: InStage(w.mem, n, Active) <==>
        InStage(old(w).disk, n, Active) && InUse(Back(old(w)), n)
      ensures faults == old(faults) && ok ==> exists i: nat :: |old(log)| <= i < |log| && log[i] == Back(old(w)) && Buried(log, i)
    {
      hide OwnFrom, Inv, IsRun, Reconciled, Fits, ValidLedger, Buried, RestartedAt, InUse, InStage, WorkspaceName;
      if w.up {
        Take(Crash);
      }
      NoSession();
      OwnLedgerLoads(w);
      var l := LoadLedger(w.disk, mount, uid, gid);
      if l.None? {
        return false;
      }
      ok := Resume(now);
    }

    /** Up again on an accepted ledger. */
    method Resume(now: int) returns (ok: bool)
      requires Sound() && !w.up && w.session == {} && Fits(w.disk) && now != 0
      modifies this
      ensures old(faults) <= faults
      ensures Valid() && Grew(old(log), log)
      ensures faults == old(faults) ==> ok && forall n :: n in old(w).disk.active ==> Reconciled(Back(old(w)), w, n)
      ensures faults == old(faults) ==> forall n :: InStage(w.mem, n, Active) <==>
        InStage(old(w).disk, n, Active) && InUse(Back(old(w)), n)
      ensures faults == old(faults) ==> exists i: nat :: |old(log)| <= i < |log| && log[i] == Back(old(w)) && Buried(log, i)
    {
      hide OwnFrom, Inv, IsRun, Reconciled, Fits, Buried, RestartedAt, InUse;
      ghost var down := log;
      Take(Restart);
      ghost var restarted := log;
      ghost var back := w;
      RestartIsLast(down, w);
      ok := Reconcile(now);
      if faults == old(faults) {
        LastIsNow();
        ReconciledIsBuried(restarted, log);
        ActiveAfterwards(back, w);
      }
    }

    lemma NoSession()
      requires Sound() && !w.up
      ensures w.session == {}
    {
      hide Inv, Init, Next;
      DownHasNoSession(log, |log| - 1);
    }
  }

  lemma OwnLedgerLoads(w: World)
    requires Inv(w)
    ensures Load(w.disk, w.disk.mount, w.disk.checkoutUID, w.disk.checkoutGID).Some? <==> Fits(w.disk)
  {
    hide ValidLedger, AheadOne, Fits;
  }

  /** A release is remembered unless the window is full of releases at least as recent. */
  lemma ReleaseIsRemembered(l: Ledger, name: string, now: int, kept: map<Key, Terminal>)
    requires name in l.active && IsPruned(WithTerminal(l, name, now), now, kept)
    requires forall k :: k in l.terminal && k.handle != l.active[name].handle ==> l.terminal[k].completed < now
    ensures var a := l.active[name]; Digest(a.handle) in kept && kept[Digest(a.handle)] == Terminal(a.id, a.handle, a.dev, a.ino, now)
  {
    var all, key := WithTerminal(l, name, now), Digest(l.active[name].handle);
    assert key !in kept ==> |kept| == TERMINAL_MAX_COUNT;
    if j :| j in kept && j != key {
      assert all[j] == l.terminal[j];
    } else {
      assert kept.Keys <= {key};
      SmallKeys(kept.Keys, key);
    }
  }

  lemma SmallKeys(keys: set<Key>, key: Key)
    requires keys <= {key}
    ensures |keys| <= 1
  {
    assert keys == {} || keys == {key};
  }

  lemma AllocateStart(w: World)
    requires Inv(w)
    ensures 0 < w.mem.next <= MAX_ID && WorkspaceName(w.mem.next) !in w.dirs
    ensures OthersKept(w, w, WorkspaceName(w.mem.next), w.mem.next)
  {
    hide Inv, WorkspaceName, ValidLedger, AheadOne;
    FromInv(w, "");
    UnissuedName(w, w.mem.next);
  }

  /** Steps on one workspace or its ID, and those that end the process. */
  predicate Touches(w: World, s: Step, name: string, id: nat) {
    match s
    case Persist(c) => c.Name() == name
    case Commit(c) => c.Name() == name
    case ClearLimits(i) => i == id
    case SetLimits(n) => n == name || (n in w.mem.active && w.mem.active[n].id == id)
    case Crash => true
    case Restart => true
    case _ => s.name == name
  }

  lemma OtherStep(w: World, s: Step, name: string, id: nat)
    requires Inv(w) && w.up && Permitted(w, s) && !Touches(w, s, name, id) && name in w.mem.active
    ensures Can(w, s) && Do(w, s).up && SameAt(w, Do(w, s), name, id) && w.session <= Do(w, s).session
  {
    hide Inv, WorkspaceName, Enabled, Apply, Guard, Applied, Fits;
    if s.Commit? {
      ApplyOthers(w.mem, s.c, name);
    }
  }

  lemma SameSelf(w: World, name: string, id: nat)
    ensures SameAt(w, w, name, id)
  {
  }

  /** An untouched offer can still be granted. */
  lemma StillOffered(w: World, w': World, fd: string, id: nat)
    requires SameAt(w, w', fd, id) && InStage(w.mem, fd, Offered) && fd in w.dirs && w.mem.active[fd].id == id
    requires w.mem.active[fd].name == fd && Applied(w, w.mem.active[fd])
    ensures InStage(w'.mem, fd, Offered) && fd in w'.dirs && w'.mem.active[fd] == w.mem.active[fd] && w'.dirs[fd] == w.dirs[fd]
    ensures Applied(w', w'.mem.active[fd])
  {
  }

  lemma NewIsNotActive(w: World)
    requires Inv(w)
    ensures WorkspaceName(w.mem.next) !in w.mem.active
  {
    hide WorkspaceName, AheadOne;
    NotIssued(w.mem, w.mem.next);
  }

  lemma SelfKept(w: World, name: string, id: nat)
    ensures OthersKept(w, w, name, id)
  {
  }

  lemma NoEmptyName(w: World)
    requires Inv(w)
    ensures "" !in w.mem.active
  {
    forall n | n in w.mem.active ensures n != "" {
      FromInv(w, n);
      assert |WorkspaceName(w.mem.active[n].id)| >= 10;
    }
  }

  lemma HandleIsUnique(w: World, name: string)
    requires Inv(w) && name in w.mem.active
    ensures forall n :: n in w.mem.active && w.mem.active[n].handle == w.mem.active[name].handle ==> n == name
  {
    hide WorkspaceName, ValidRecords, ValidTerminals, AheadOne;
  }

  /** A replay entry does not depend on the stage its record went through last. */
  lemma SameReplay(l: Ledger, active: map<string, Allocation>, name: string, now: int)
    requires name in l.active && name in active && active[name] == l.active[name].(stage := active[name].stage)
    ensures WithTerminal(l, name, now) == WithTerminal(l.(active := active), name, now)
  {
  }

  lemma AllSame(w: World)
    ensures forall n, i :: SameAt(w, w, n, i)
  {
  }

  lemma StillThere(w0: World, w: World, name: string)
    requires name in w0.mem.active && SameAt(w0, w, name, w0.mem.active[name].id)
    ensures name in w.mem.active && w.mem.active[name] == w0.mem.active[name]
  {
  }

  lemma KeysKept(w: World, w': World, name: string, id: nat)
    requires OthersKept(w, w', name, id) && name in w.mem.active
    ensures w'.mem.active.Keys <= w.mem.active.Keys
  {
    forall n | n in w'.mem.active && n != name ensures n in w.mem.active {
      assert SameAt(w, w', n, id + 1);
    }
  }

  /** A reconciliation without faults leaves no offer of an earlier process that could be granted. */
  lemma ReconciledIsFrozen(r: World, w: World)
    requires ReconciledAll(r, w)
    ensures Frozen(r, w)
  {
    hide Applied, Healthy, Retirable, Retired;
    forall n | n in w.mem.active && w.mem.active[n].stage in {Offered, Granting} ensures !Applied(w, w.mem.active[n]) {
      assert Reconciled(r, w, n);
      NotRetired(w, n, r.mem.active[n].id);
    }
  }

  lemma RestartIsLast(run: seq<World>, w: World)
    requires IsRun(run) && Can(run[|run| - 1], Restart) && w == Do(run[|run| - 1], Restart)
    ensures RestartedAt(run + [w], |run|)
  {
  }

  lemma ReconciledIsBuried(run: seq<World>, more: seq<World>)
    requires IsRun(more) && run != [] && RestartedAt(run, |run| - 1) && Grew(run, more)
    requires ReconciledAll(run[|run| - 1], more[|more| - 1])
    ensures Buried(more, |run| - 1)
  {
    hide Init, Next, Can, Do, NotRevived, Frozen, Reconciled;
    var i := |run| - 1;
    assert more[i] == run[i] && more[i - 1] == run[i - 1];
    assert OwnFrom(run, i);
    NoResurrection(more, i, |more| - 1);
    ReconciledIsFrozen(run[i], more[|more| - 1]);
  }

  /** What is active after a reconciliation without faults is what was active and in use before. */
  lemma ActiveAfterwards(r: World, w: World)
    requires Inv(r) && ReconciledAll(r, w)
    ensures forall n :: InStage(w.mem, n, Active) <==> InStage(r.mem, n, Active) && InUse(r, n)
  {
    hide Inv, Applied, Healthy, Retirable, Retired, InUse;
    forall n ensures InStage(w.mem, n, Active) <==> InStage(r.mem, n, Active) && InUse(r, n) {
      if n in r.mem.active {
        FromInv(r, n);
        HealthyExactly(r, n);
        assert Reconciled(r, w, n);
        if n in w.mem.active {
          NotRetired(w, n, r.mem.active[n].id);
        }
      }
    }
  }

  lemma NotRetired(w: World, name: string, id: nat)
    requires name in w.mem.active
    ensures !Retired(w, name, id)
  {
  }

  /** Reconciling a record that is as it was is reconciling it from the start. */
  lemma OneReconciled(w0: World, w: World, w': World, name: string, calm: bool)
    requires name in w0.mem.active && w0.mem.active[name].name == name
    requires SameAt(w0, w, name, w0.mem.active[name].id)
    requires name in w.mem.active && (calm ==> Reconciled(w, w', name))
    ensures calm ==> Reconciled(w0, w', name)
  {
  }

  /** Reconciling one record leaves every other one as it was, done or still to do. */
  lemma OthersReconciled(w0: World, w: World, w': World, name: string, todo: set<string>, calm: bool)
    requires Inv(w0) && todo <= w0.mem.active.Keys && name in w0.mem.active && name !in todo
    requires OthersKept(w, w', name, w0.mem.active[name].id)
    requires forall n :: n in todo ==> SameAt(w0, w, n, w0.mem.active[n].id)
    requires calm ==> forall n :: n in w0.mem.active && n !in todo && n != name ==> Reconciled(w0, w, n)
    ensures forall n :: n in todo ==> SameAt(w0, w', n, w0.mem.active[n].id)
    ensures calm ==> forall n :: n in w0.mem.active && n !in todo && n != name ==> Reconciled(w0, w', n)
  {
    hide Inv, Reconciled, SameAt;
    forall n | n in w0.mem.active && n != name ensures SameAt(w, w', n, w0.mem.active[n].id) {
      IdsDiffer(w0, n, name);
    }
    forall n | n in todo ensures SameAt(w0, w', n, w0.mem.active[n].id) {
      SameSame(w0, w, w', n, w0.mem.active[n].id);
    }
    if calm {
      forall n | n in w0.mem.active && n !in todo && n != name ensures Reconciled(w0, w', n) {
        FromInv(w0, n);
        StaysReconciled(w0, w, w', n);
      }
    }
  }

  lemma SameSame(w0: World, w: World, w': World, n: string, i: nat)
    requires SameAt(w0, w, n, i) && SameAt(w, w', n, i)
    ensures SameAt(w0, w', n, i)
  {
  }

  lemma StaysReconciled(w0: World, w: World, w': World, n: string)
    requires n in w0.mem.active && w0.mem.active[n].name == n
    requires Reconciled(w0, w, n) && SameAt(w, w', n, w0.mem.active[n].id)
    ensures Reconciled(w0, w', n)
  {
  }

  lemma IdsDiffer(w: World, n: string, m: string)
    requires Inv(w) && n in w.mem.active && m in w.mem.active && n != m
    ensures w.mem.active[n].id != w.mem.active[m].id
  {
    hide WorkspaceName, ValidRecords, ValidTerminals, AheadOne;
  }
}
