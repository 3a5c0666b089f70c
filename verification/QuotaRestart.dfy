/** What a restart can and cannot bring back: records that were not durably active stay inactive, and
    exactly what that depends on. */
module QuotaRestart {
  import opened Ledger
  import opened LedgerSize
  import opened QuotaProtocol

  /** Every record moved up the ladder by this step was reserved by the running process. */
  predicate OwnStep(w: World, s: Step) {
    s.Persist? && s.c.Advance? ==> Ours(w, s.c.name)
  }

  ghost predicate NextOwn(w: World, w': World) {
    exists s :: Can(w, s) && OwnStep(w, s) && w' == Do(w, s)
  }

  /** From some state on only offers of the running process are acknowledged. */
  ghost predicate OwnFrom(run: seq<World>, m: nat) {
    forall i :: m <= i < |run| - 1 ==> NextOwn(run[i], run[i + 1])
  }

  /** The step moves no record up the ladder that a restarted state already knew. */
  predicate Harmless(r: World, w: World, s: Step) {
    s.Persist? && s.c.Advance? && s.c.name in w.mem.active ==> w.mem.active[s.c.name].id >= r.mem.next
  }

  /** Relative to a restarted state r: what r knew and did not have durably active is not active,
      and this process's handles all belong to later records. */
  ghost predicate NotRevived(r: World, w: World) {
    && r.mem.next <= w.mem.next
    && (forall n :: InStage(w.mem, n, Active) && w.mem.active[n].id < r.mem.next ==> InStage(r.disk, n, Active))
    && (forall n :: InStage(w.disk, n, Active) && w.disk.active[n].id < r.mem.next ==> InStage(r.disk, n, Active))
    && (forall n :: Ours(w, n) ==> w.mem.active[n].id >= r.mem.next)
    && (!w.up ==> w.session == {})
  }

  lemma PersistNotRevived(r: World, w: World, c: Change)
    requires Inv(w) && NotRevived(r, w) && Can(w, Persist(c)) && Harmless(r, w, Persist(c))
    ensures NotRevived(r, Do(w, Persist(c)))
  {
    hide WorkspaceName, Inv, Handles, IsPruned, ValidLedger, AheadOne;
    var w' := Do(w, Persist(c));
    forall n | InStage(w'.disk, n, Active) && w'.disk.active[n].id < r.mem.next ensures InStage(r.disk, n, Active) {
      if n != c.Name() {
        ApplyOthers(w.mem, c, n);
        assert InStage(w.mem, n, Active);
      }
    }
    forall n | Ours(w', n) ensures w'.mem.active[n].id >= r.mem.next {
      assert Ours(w, n);
    }
  }

  lemma CommitNotRevived(r: World, w: World, c: Change)
    requires Inv(w) && NotRevived(r, w) && Can(w, Commit(c))
    ensures NotRevived(r, Do(w, Commit(c)))
  {
    hide WorkspaceName, Inv, IsPruned;
    var w' := Do(w, Commit(c));
    FromInv(w, c.Name());
    forall n | Ours(w', n) ensures w'.mem.active[n].id >= r.mem.next {
      if n != c.Name() {
        ApplyOthers(w.mem, c, n);
        if c.Reserve? {
          FreshHandle(w.mem, c.handle);
        }
        assert Ours(w, n);
      } else if !c.Reserve? {
        assert Ours(w, n);
      }
    }
  }

  lemma SameNotRevived(r: World, w: World, w': World)
    requires NotRevived(r, w) && w'.mem == w.mem && w'.disk == w.disk && w'.session <= w.session
    requires !w'.up ==> w'.session == {}
    ensures NotRevived(r, w')
  {
    forall n | Ours(w', n) ensures w'.mem.active[n].id >= r.mem.next {
      assert Ours(w, n);
    }
  }

  lemma RestartNotRevived(r: World, w: World)
    requires Ledgers(w) && NotRevived(r, w) && Can(w, Restart)
    ensures NotRevived(r, Do(w, Restart))
  {
    hide WorkspaceName, ValidLedger, AheadOne;
  }

  lemma StepNotRevived(r: World, w: World, s: Step)
    requires Inv(w) && NotRevived(r, w) && Can(w, s) && Harmless(r, w, s)
    ensures NotRevived(r, Do(w, s))
  {
    hide WorkspaceName, Apply, Enabled, Guard, NotRevived, Inv, Ledgers, Applied, InStage;
    FromInv(w, "");
    match s {
      case Persist(c) => PersistNotRevived(r, w, c);
      case Commit(c) => CommitNotRevived(r, w, c);
      case Restart => RestartNotRevived(r, w);
      case _ =>
        UpHasReason(r, w);
        SameNotRevived(r, w, Do(w, s));
    }
  }

  lemma UpHasReason(r: World, w: World)
    requires NotRevived(r, w)
    ensures !w.up ==> w.session == {}
  {
  }

  lemma RestartedState(w: World)
    requires Ledgers(w) && Can(w, Restart) && w.session == {}
    ensures NotRevived(Do(w, Restart), Do(w, Restart))
  {
    hide WorkspaceName, ValidLedger, AheadOne;
  }

  lemma OwnIsHarmless(r: World, w: World, s: Step)
    requires NotRevived(r, w) && OwnStep(w, s)
    ensures Harmless(r, w, s)
  {
  }

  /** The daemon came up here. */
  ghost predicate RestartedAt(run: seq<World>, i: nat) {
    0 < i < |run| && Can(run[i - 1], Restart) && run[i] == Do(run[i - 1], Restart)
  }

  /** A record that was not durably active when the daemon restarted is never active again,
      through any number of further operations, crashes and restarts, as long as only offers of the
      running process are acknowledged. */
  lemma {:induction false} NoResurrection(run: seq<World>, i: nat, j: nat)
    requires IsRun(run) && OwnFrom(run, i) && 0 < i <= j < |run|
    requires RestartedAt(run, i)
    ensures NotRevived(run[i], run[j])
    decreases j
  {
    hide Init, Inv, Ledgers, NotRevived, Next, Fits;
    if i == j {
      RunInv(run, i - 1);
      FromInv(run[i - 1], "");
      DownHasNoSession(run, i - 1);
      RestartedState(run[i - 1]);
    } else {
      NoResurrection(run, i, j - 1);
      RunInv(run, j - 1);
      assert NextOwn(run[j - 1], run[j - 1 + 1]);
      var s :| Can(run[j - 1], s) && OwnStep(run[j - 1], s) && run[j] == Do(run[j - 1], s);
      OwnIsHarmless(run[i], run[j - 1], s);
      StepNotRevived(run[i], run[j - 1], s);
    }
  }

  lemma {:induction false} DownHasNoSession(run: seq<World>, i: nat)
    requires IsRun(run) && i < |run|
    ensures !run[i].up ==> run[i].session == {}
  {
    hide WorkspaceName, Inv;
    if i > 0 {
      DownHasNoSession(run, i - 1);
      var s := RunStep(run, i - 1);
    }
  }

  // ----- after a reconciliation that left no offer standing -----

  /** Among the records of one ledger that a restarted state already knew, none that is offered or
      granting still has its project and limits. */
  ghost predicate NoneStanding(r: World, w: World, active: map<string, Allocation>) {
    forall n :: n in active && active[n].id < r.mem.next && active[n].stage in {Offered, Granting} ==> !Applied(w, active[n])
  }

  /** What a fault-free reconciliation achieves, in memory and on disk. */
  ghost predicate Frozen(r: World, w: World) {
    NoneStanding(r, w, w.mem.active) && NoneStanding(r, w, w.disk.active)
  }

  lemma FrozenIsHarmless(r: World, w: World, s: Step)
    requires NotRevived(r, w) && Frozen(r, w) && Can(w, s)
    ensures Harmless(r, w, s)
  {
    hide Applied, Fits, WorkspaceName, Handles, IsPruned;
  }

  /** Nobody can put an old workspace under its limits again. */
  lemma NotAppliedStays(r: World, w: World, s: Step, a: Allocation)
    requires Inv(w) && NotRevived(r, w) && Can(w, s) && 0 < a.id < r.mem.next && a.name == WorkspaceName(a.id) && a.id <= MAX_ID
    requires !Applied(w, a)
    ensures !Applied(Do(w, s), a)
  {
    hide Inv, Enabled, Apply, Guard, Fits, WorkspaceName, IsPruned, Handles;
    if (s.Mkdir? || s.SetProject? || s.SetLimits?) && s.name in w.mem.active {
      FromInv(w, s.name);
      assert Ours(w, s.name) ==> w.mem.active[s.name].id >= r.mem.next;
      NamesDistinct(w.mem.active[s.name].id, a.id);
    }
  }

  lemma KnownRecord(w: World, n: string)
    requires Inv(w)
    ensures n in w.mem.active ==> var a := w.mem.active[n]; 0 < a.id <= MAX_ID && n == a.name == WorkspaceName(a.id)
    ensures n in w.disk.active ==> var a := w.disk.active[n]; 0 < a.id <= MAX_ID && n == a.name == WorkspaceName(a.id)
  {
    hide Inv, WorkspaceName, AheadOne, ValidLedger;
    FromInv(w, n);
  }

  lemma PersistFrozen(r: World, w: World, c: Change)
    requires Inv(w) && NotRevived(r, w) && Frozen(r, w) && Can(w, Persist(c))
    ensures Frozen(r, Do(w, Persist(c)))
  {
    hide WorkspaceName, Inv, Handles, IsPruned, Applied;
    FrozenIsHarmless(r, w, Persist(c));
    FromInv(w, c.Name());
    var w' := Do(w, Persist(c));
    SameQuotas(w, w');
    forall n | n in w'.disk.active && w'.disk.active[n].id < r.mem.next && w'.disk.active[n].stage in {Offered, Granting}
      ensures !Applied(w', w'.disk.active[n])
    {
      if n != c.Name() {
        ApplyOthers(w.mem, c, n);
        assert n in w.mem.active && w.mem.active[n] == w'.disk.active[n];
      }
    }
  }

  lemma SameQuotas(w: World, w': World)
    requires w'.dirs == w.dirs && w'.limits == w.limits
    ensures forall a :: Applied(w', a) <==> Applied(w, a)
  {
  }

  lemma StepFrozen(r: World, w: World, s: Step)
    requires Inv(w) && NotRevived(r, w) && Frozen(r, w) && Can(w, s)
    ensures Frozen(r, Do(w, s))
  {
    hide Inv, NotRevived, Applied, Enabled, Apply, Guard, Fits, WorkspaceName;
    var w' := Do(w, s);
    if s.Persist? {
      PersistFrozen(r, w, s.c);
    } else {
      forall n | n in w'.mem.active && w'.mem.active[n].id < r.mem.next && w'.mem.active[n].stage in {Offered, Granting}
        ensures !Applied(w', w'.mem.active[n])
      {
        KnownRecord(w, n);
        NotAppliedStays(r, w, s, w'.mem.active[n]);
      }
      forall n | n in w'.disk.active && w'.disk.active[n].id < r.mem.next && w'.disk.active[n].stage in {Offered, Granting}
        ensures !Applied(w', w'.disk.active[n])
      {
        KnownRecord(w, n);
        NotAppliedStays(r, w, s, w'.disk.active[n]);
      }
    }
  }

  /** From a reconciliation on that left no offer standing, there is no resurrection whatever is
      acknowledged, and through whatever crashes and restarts. */
  lemma {:induction false} NoResurrectionAtAll(run: seq<World>, i: nat, k: nat, j: nat)
    requires IsRun(run) && i <= k <= j < |run| && NotRevived(run[i], run[k]) && Frozen(run[i], run[k])
    ensures NotRevived(run[i], run[j]) && Frozen(run[i], run[j])
    decreases j
  {
    hide Init, Inv, NotRevived, Frozen, Can, Do;
    if k < j {
      NoResurrectionAtAll(run, i, k, j - 1);
      var s := RunStep(run, j - 1);
      FrozenIsHarmless(run[i], run[j - 1], s);
      StepNotRevived(run[i], run[j - 1], s);
      StepFrozen(run[i], run[j - 1], s);
    }
  }

  /** What a restart had not durably active is not active, and can no longer become so. */
  ghost predicate Buried(run: seq<World>, i: nat) {
    RestartedAt(run, i) && NotRevived(run[i], run[|run| - 1]) && Frozen(run[i], run[|run| - 1])
  }

  lemma BuriedForGood(run: seq<World>, more: seq<World>, i: nat)
    requires IsRun(more) && run <= more && Buried(run, i)
    ensures Buried(more, i)
  {
    hide Init, Next, Can, Do, NotRevived, Frozen;
    assert more[i] == run[i] && more[i - 1] == run[i - 1] && more[|run| - 1] == run[|run| - 1];
    NoResurrectionAtAll(more, i, |run| - 1, |more| - 1);
  }

  // ----- and exactly when there can be one -----

  /** An offered workspace that an acknowledgement would find in order. */
  predicate Grantable(w: World, name: string) {
    && InStage(w.mem, name, Offered) && name in w.dirs && w.dirs[name].linked
    && w.dirs[name].owner == Root && w.dirs[name].mode == 0 && Applied(w, w.mem.active[name])
  }

  /** Writing an edit and taking it up, as two steps of a run. */
  lemma SaveGrows(run: seq<World>, w: World, c: Change) returns (more: seq<World>, w': World)
    requires IsRun(run) && run[|run| - 1] == w && w.up && Enabled(w.mem, c) && Guard(w, c) && !c.Reserve?
    ensures IsRun(more) && run <= more && more[|more| - 1] == w'
    ensures w' == w.(mem := Apply(w.mem, c), disk := Apply(w.mem, c))
  {
    hide Init, Next, Enabled, Apply, Guard, Applied, Fits;
    RunGrows(run, Persist(c));
    var w1 := Do(w, Persist(c));
    RunGrows(run + [w1], Commit(c));
    w' := Do(w1, Commit(c));
    more := run + [w1] + [w'];
  }

  lemma GrantGrows(run: seq<World>, w: World, name: string) returns (more: seq<World>, w': World)
    requires IsRun(run) && run[|run| - 1] == w && w.up && w.mem == w.disk
    requires InStage(w.mem, name, Granting) && name in w.dirs && w.dirs[name].linked && Applied(w, w.mem.active[name])
    ensures IsRun(more) && run <= more && more[|more| - 1] == w'
    ensures w' == w.(dirs := w.dirs[name := w.dirs[name].(owner := Checkout, mode := PRIVATE)])
  {
    hide Init, Next, Enabled, Apply, Guard, Applied, Fits;
    RunGrows(run, Grant(name));
    var w1 := Do(w, Grant(name));
    RunGrows(run + [w1], Chmod(name, PRIVATE));
    w' := Do(w1, Chmod(name, PRIVATE));
    more := run + [w1] + [w'];
  }

  /** A record that is being granted can be granted, whoever offered it. */
  lemma GrantedGrows(run: seq<World>, w: World, name: string) returns (more: seq<World>, w': World)
    requires IsRun(run) && run[|run| - 1] == w && w.up && w.mem == w.disk
    requires InStage(w.mem, name, Granting) && name in w.dirs && w.dirs[name].linked && Applied(w, w.mem.active[name])
    ensures IsRun(more) && run <= more && more[|more| - 1] == w'
    ensures w'.mem == w.mem.(active := w.mem.active[name := w.mem.active[name].(stage := Active)])
  {
    hide Init, Next, IsRun, Fits, Handles, IsPruned;
    var w1;
    more, w1 := GrantGrows(run, w, name);
    more, w' := SaveGrows(more, w1, Advance(name));
  }

  /** And an offer in order can be acknowledged. */
  lemma AckGrows(run: seq<World>, w: World, name: string) returns (more: seq<World>, w': World)
    requires IsRun(run) && run[|run| - 1] == w && w.up && w.mem == w.disk && Grantable(w, name)
    requires w.mem.active[name].name == name
    ensures IsRun(more) && run <= more && more[|more| - 1] == w'
    ensures w'.mem == w.mem.(active := w.mem.active[name := w.mem.active[name].(stage := Active)])
  {
    hide Init, Next, IsRun, Fits, Handles, IsPruned;
    var w1;
    more, w1 := SaveGrows(run, w, Advance(name));
    more, w' := GrantedGrows(more, w1, name);
  }

  /** A record a restarted state already knew that is offered or granting under its limits. */
  ghost predicate Standing(r: World, w: World, name: string) {
    && name in w.mem.active && w.mem.active[name].id < r.mem.next
    && w.mem.active[name].stage in {Offered, Granting} && Applied(w, w.mem.active[name])
  }

  ghost predicate AnyStanding(r: World, w: World) {
    exists n :: Standing(r, w, n)
  }

  lemma NoneStandingAnywhere(r: World, w: World)
    requires !AnyStanding(r, w) && w.mem == w.disk
    ensures Frozen(r, w)
  {
    hide Applied;
    forall n | n in w.mem.active ensures !Standing(r, w, n) {}
  }

  /** Such a record is linked, and root-only while it is merely offered. */
  lemma StandingDirectory(r: World, w: World, name: string)
    requires Inv(w) && Standing(r, w, name)
    ensures var a := w.mem.active[name]; name == a.name == WorkspaceName(a.id) && 0 < a.id <= MAX_ID
    ensures name in w.dirs && w.dirs[name].linked && (InStage(w.mem, name, Offered) ==> w.dirs[name].owner == Root)
  {
    hide Inv, WorkspaceName, ValidLedger, AheadOne;
    FromInv(w, name);
  }

  /** What stands offered or granting now was not active when the daemon came up. */
  lemma StandingWasNotActive(run: seq<World>, i: nat, name: string)
    requires IsRun(run) && RestartedAt(run, i) && Standing(run[i], run[|run| - 1], name)
    ensures !InStage(run[i].disk, name, Active)
  {
    hide Init, Next, Fits, Applied, Inv, WorkspaceName;
    var j := |run| - 1;
    RunInv(run, j);
    StandingDirectory(run[i], run[j], name);
    NeverBackward(run, i, j, run[j].mem.active[name].id);
  }

  /** A record of an earlier process that reconciliation left standing, because some system call
      failed on it, can be acknowledged and is active again. */
  lemma StandingRevives(run: seq<World>, i: nat, name: string) returns (more: seq<World>)
    requires IsRun(run) && RestartedAt(run, i) && run[|run| - 1].up && run[|run| - 1].mem == run[|run| - 1].disk
    requires Standing(run[i], run[|run| - 1], name)
    ensures IsRun(more) && run <= more && RestartedAt(more, i) && !NotRevived(more[i], more[|more| - 1])
  {
    hide Init, Next, Fits, Applied, Inv, Guard, Enabled, Apply, Ledgers, WorkspaceName;
    var w := run[|run| - 1];
    RunInv(run, |run| - 1);
    StandingDirectory(run[i], w, name);
    StandingWasNotActive(run, i, name);
    var w';
    if InStage(w.mem, name, Offered) {
      RunGrows(run, Chmod(name, 0));
      var w1 := Do(w, Chmod(name, 0));
      SameDirs(w, w1, w.mem.active[name]);
      more, w' := AckGrows(run + [w1], w1, name);
    } else {
      more, w' := GrantedGrows(run, w, name);
    }
    assert more[i] == run[i] && more[i - 1] == run[i - 1];
    assert InStage(w'.mem, name, Active);
  }

  lemma SameDirs(w: World, w': World, a: Allocation)
    requires w'.limits == w.limits && Applied(w, a) && a.name in w'.dirs && w'.dirs[a.name].project == w.dirs[a.name].project
    ensures Applied(w', a)
  {
  }

  /** Some continuation makes a record active that was not durably active when the daemon came up. */
  ghost predicate CanRevive(run: seq<World>, i: nat)
    requires i < |run|
  {
    exists more :: IsRun(more) && run <= more && !NotRevived(run[i], more[|more| - 1])
  }

  /** The exact condition: while nothing has been revived and no write is pending, a revival is
      possible exactly if a record of an earlier process still stands. */
  lemma RevivesExactly(run: seq<World>, i: nat)
    requires IsRun(run) && RestartedAt(run, i) && run[|run| - 1].up && run[|run| - 1].mem == run[|run| - 1].disk
    requires NotRevived(run[i], run[|run| - 1])
    ensures CanRevive(run, i) <==> AnyStanding(run[i], run[|run| - 1])
  {
    hide Init, Next, Can, Do, Inv, NotRevived, Applied;
    var r, w := run[i], run[|run| - 1];
    if AnyStanding(r, w) {
      var n :| Standing(r, w, n);
      var more := StandingRevives(run, i, n);
      assert more[i] == run[i];
    } else {
      NoneStandingAnywhere(r, w);
      forall more | IsRun(more) && run <= more ensures NotRevived(r, more[|more| - 1]) {
        assert more[i] == r && more[|run| - 1] == w;
        NoResurrectionAtAll(more, i, |run| - 1, |more| - 1);
      }
    }
  }

  // ----- an input -----

  lemma MkdirGrows(run: seq<World>, w: World, name: string, ino: nat) returns (more: seq<World>, w': World)
    requires IsRun(run) && run[|run| - 1] == w && w.up && InStage(w.mem, name, Reserved) && Ours(w, name) && w.dirs == map[] && ino != 0
    ensures IsRun(more) && run <= more && more[|more| - 1] == w'
    ensures w' == w.(dirs := map[name := Dir(ino, true, Root, 0, 0, 0)])
  {
    hide Init, Next, Fits, Inv;
    RunGrows(run, Mkdir(name, ino));
    w' := Do(w, Mkdir(name, ino));
    more := run + [w'];
  }

  lemma LimitsGrow(run: seq<World>, w: World, name: string) returns (more: seq<World>, w': World)
    requires IsRun(run) && run[|run| - 1] == w && w.up && InStage(w.mem, name, Preparing) && Ours(w, name)
    requires w.mem.active[name].name == name && name in w.dirs && w.dirs[name].linked && w.dirs[name].owner == Root
    ensures IsRun(more) && run <= more && more[|more| - 1] == w'
    ensures var a := w.mem.active[name];
      w' == w.(dirs := w.dirs[name := w.dirs[name].(project := a.id)], limits := w.limits[a.id := Limits(Blocks(a.bytes), a.inodes)])
    ensures Applied(w', w'.mem.active[name])
  {
    hide Init, Next, Fits, Inv;
    var a := w.mem.active[name];
    RunGrows(run, SetProject(name, a.id));
    var w1 := Do(w, SetProject(name, a.id));
    RunGrows(run + [w1], SetLimits(name));
    w' := Do(w1, SetLimits(name));
    more := run + [w1] + [w'];
  }

  lemma ReserveGrows(run: seq<World>, w: World) returns (more: seq<World>, w': World)
    requires IsRun(run) && Init(w) && run[|run| - 1] == w
    ensures IsRun(more) && run <= more && more[|more| - 1] == w'
    ensures var id, name := w.mem.next, WorkspaceName(w.mem.next);
      var l := w.mem.(next := id + 1, active := map[name := Allocation(id, name, 1, 0, 0, 1, 1, Reserved)]);
      w' == w.(mem := l, disk := l, session := {1})
  {
    hide Next, Fits, Inv, WorkspaceName;
    var c := Reserve(w.mem.next, 1, 1, 1);
    NoHandles(w.mem);
    RunGrows(run, Persist(c));
    var w1 := Do(w, Persist(c));
    RunGrows(run + [w1], Commit(c));
    w' := Do(w1, Commit(c));
    more := run + [w1] + [w'];
  }

  lemma CaptureGrows(run: seq<World>, w: World, name: string, ino: nat) returns (more: seq<World>, w': World)
    requires IsRun(run) && run[|run| - 1] == w && w.up && InStage(w.mem, name, Reserved) && Ours(w, name)
    requires ino != 0 && name in w.dirs && w.dirs[name].ino == ino
    ensures IsRun(more) && run <= more && more[|more| - 1] == w'
    ensures var l := w.mem.(active := w.mem.active[name := w.mem.active[name].(dev := w.mem.mount.dev, ino := ino, stage := Preparing)]);
      w' == w.(mem := l, disk := l)
  {
    hide Init, Next, Fits, Inv, Handles, IsPruned;
    more, w' := SaveGrows(run, w, Capture(name, ino));
  }

  lemma AdvanceGrows(run: seq<World>, w: World, name: string) returns (more: seq<World>, w': World)
    requires IsRun(run) && run[|run| - 1] == w && w.up && name in w.mem.active && w.mem.active[name].stage in {Preparing, Ready}
    requires Ours(w, name) && name in w.dirs && Applied(w, w.mem.active[name])
    ensures IsRun(more) && run <= more && more[|more| - 1] == w'
    ensures var l := w.mem.(active := w.mem.active[name := w.mem.active[name].(stage := Successor(w.mem.active[name].stage))]);
      w' == w.(mem := l, disk := l)
  {
    hide Init, Next, Fits, Inv, Handles, IsPruned, Applied;
    more, w' := SaveGrows(run, w, Advance(name));
  }

  /** The state after one allocation from an initial state. */
  function Offering(first: World): World {
    var id, name := first.mem.next, WorkspaceName(first.mem.next);
    var l := first.mem.(next := id + 1, active := map[name := Allocation(id, name, 1, first.mem.mount.dev, 1, 1, 1, Offered)]);
    first.(mem := l, disk := l, session := {1}, dirs := map[name := Dir(1, true, Root, 0, id, 0)],
           limits := map[id := Limits(1, 1)])
  }

  /** From every initial state an allocation reaches an offer in order. */
  lemma OfferIsReachable(first: World) returns (run: seq<World>)
    requires Init(first)
    ensures IsRun(run) && run[|run| - 1] == Offering(first) && Grantable(Offering(first), WorkspaceName(first.mem.next))
  {
    hide Next, Fits, Inv, WorkspaceName;
    var name := WorkspaceName(first.mem.next);
    var w;
    run, w := ReserveGrows([first], first);
    run, w := MkdirGrows(run, w, name, 1);
    run, w := CaptureGrows(run, w, name, 1);
    run, w := LimitsGrow(run, w, name);
    run, w := AdvanceGrows(run, w, name);
    run, w := AdvanceGrows(run, w, name);
    assert w.dirs == Offering(first).dirs && w.limits == Offering(first).limits;
    assert w.mem.active == Offering(first).mem.active;
  }

  /** A run that revives: allocation, crash, restart with a reconciliation that fails on the offer,
      and an acknowledgement of it. */
  lemma RevivalIsReachable(first: World) returns (run: seq<World>, i: nat)
    requires Init(first) && Machine(first.mem)
    ensures IsRun(run) && RestartedAt(run, i) && !NotRevived(run[i], run[|run| - 1])
  {
    hide Next, Fits, Inv, WorkspaceName, NotRevived, Machine, Applied;
    var name := WorkspaceName(first.mem.next);
    var early := OfferIsReachable(first);
    OfferFits(first);
    run, i := CrashAndRestart(early, Offering(first));
    StillStanding(Offering(first), run[i], name);
    run := StandingRevives(run, i, name);
  }

  /** A restart leaves an offer standing until reconciliation comes to it. */
  lemma StillStanding(w: World, r: World, name: string)
    requires Grantable(w, name) && r == w.(session := {}) && w.mem.active[name].id < w.mem.next
    ensures Standing(r, r, name)
  {
  }

  lemma CrashAndRestart(run: seq<World>, w: World) returns (more: seq<World>, i: nat)
    requires IsRun(run) && run[|run| - 1] == w && w.up && Fits(w.disk)
    ensures IsRun(more) && run <= more && RestartedAt(more, i) && i == |more| - 1
    ensures more[i] == w.(mem := w.disk, session := {})
  {
    hide Init, Next, Inv, Fits;
    RunGrows(run, Crash);
    var w1 := Do(w, Crash);
    RunGrows(run + [w1], Restart);
    more := run + [w1] + [Do(w1, Restart)];
    i := |run| + 1;
  }

  lemma OfferFits(first: World)
    requires Init(first) && Machine(first.mem)
    ensures Fits(Offering(first).disk)
  {
    hide Fits, WorkspaceName;
    NameLength(first.mem.next);
    FewRecordsFit(Offering(first).disk);
  }

  lemma NameLength(id: nat)
    ensures |WorkspaceName(id)| == 18
  {
    HexLength(id, 8);
  }
}
