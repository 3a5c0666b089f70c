/** Runs of the agent over its fence directory: leases are accepted one at a time, a crash may fall
    between any two file writes, and files may be lost or damaged between whole operations. */
module FenceProtocol {
  import opened Text
  import opened FenceStore
  import opened Utf8

  /** `Writing` and `Indexing` are inside a save, for a lease (`run`) or for a reconciliation mark. */
  datatype Phase = Idle | Writing(fence: Fence, run: bool) | Indexing(fence: Fence, run: bool) | Running(env: ID)

  datatype Event = Started(env: ID, fence: int) | Marked(env: ID)

  /** `written` is, per environment, the fence last put in place. */
  datatype State = State(dir: Dir, phase: Phase, history: seq<Event>, written: map<ID, Fence>)

  datatype Step =
    | Accept(env: ID, fence: int)   // Load and the lease checks passed
    | WriteFence
    | WriteIndex(reported: bool)    // and whether its success was
    | Abandon                       // a write failed
    | Stale                         // the lease was lost; Load passed
    | Finish
    | Crash
    | Lose(name: Bytes)
    | Damage(name: Bytes)

  /** What `runLease` demands before it saves the claimed fence. */
  predicate Acceptable(d: Dir, env: ID, fence: int) {
    && fence >= 0 && Load(d, env).Loaded?
    && (Load(d, env).existed ==> !Load(d, env).fence.reconcile && fence > Load(d, env).fence.highest)
  }

  /** After a completed save exactly the greater fences are acceptable, and none once the environment
      has to be reconciled; where nothing was ever saved every fence is. */
  lemma NextAcceptable(d: Dir, f: Fence, next: int)
    requires ValidFence(f) && ReadIndex(d).Trusted?
    ensures Acceptable(WithIndex(WithFence(d, f), f.env), f.env, next) <==> !f.reconcile && next > f.highest
    ensures Acceptable(map[], f.env, next) <==> next >= 0
  {
    hide ValidUtf8, FileName, ReadIndex;
    LoadAfterSave(d, f, f.env);
    NothingSaved(f.env);
  }

  lemma NothingSaved(env: ID)
    requires ValidID(env)
    ensures Load(map[], env) == Loaded(Fence(env, 0, false), false)
  {
    hide ValidUtf8, FileName;
  }

  predicate Can(s: State, t: Step) {
    match t
    case Accept(env, fence) => s.phase.Idle? && Acceptable(s.dir, env, fence)
    case WriteFence => s.phase.Writing?
    case WriteIndex(_) => s.phase.Indexing?
    case Abandon => s.phase.Writing? || s.phase.Indexing?
    case Stale => s.phase.Running? && Load(s.dir, s.phase.env).Loaded?
    case Finish => s.phase.Running?
    case Crash => true
    case Lose(name) => (s.phase.Idle? || s.phase.Running?) && name in s.dir
    case Damage(name) => (s.phase.Idle? || s.phase.Running?) && name in s.dir
  }

  /** Where a save leads when it does not end in a crash. */
  function After(f: Fence, run: bool, ok: bool): Phase {
    if run && !ok then Idle else Running(f.env)
  }

  function Do(s: State, t: Step): State
    requires Can(s, t)
  {
    match t
    case Accept(env, fence) => s.(phase := Writing(Fence(env, fence, false), true))
    case WriteFence =>
      var f := s.phase.fence;
      s.(dir := WithFence(s.dir, f), phase := Indexing(f, s.phase.run), written := s.written[f.env := f],
         history := if s.phase.run then s.history else s.history + [Marked(f.env)])
    case WriteIndex(reported) =>
      var f := s.phase.fence;
      s.(dir := WithIndex(s.dir, f.env), phase := After(f, s.phase.run, reported),
         history := if s.phase.run && reported then s.history + [Started(f.env, f.highest)] else s.history)
    case Abandon => s.(phase := After(s.phase.fence, s.phase.run, false))
    case Stale => s.(phase := Writing(Load(s.dir, s.phase.env).fence.(env := s.phase.env, reconcile := true), false))
    case Finish => s.(phase := Idle)
    case Crash => s.(phase := Idle)
    case Lose(name) => s.(dir := s.dir - {name})
    case Damage(name) => s.(dir := s.dir[name := Garbage])
  }

  /** The manifest or at least one fence file survives. */
  ghost predicate NotAllLost(s: State) {
    s.history != [] ==> INDEX_NAME in s.dir || HasFenceFile(s.dir)
  }

  ghost predicate Next(s: State, s': State) {
    exists t :: Can(s, t) && s' == Do(s, t)
  }

  ghost predicate IsRun(run: seq<State>) {
    && run != [] && run[0] == State(map[], Idle, [], map[])
    && (forall i :: 0 <= i < |run| - 1 ==> Next(run[i], run[i + 1]))
  }

  /** Up to a point of the run something of the directory has always survived. */
  ghost predicate Survives(run: seq<State>, n: nat) {
    forall i :: 0 <= i < n && i < |run| ==> NotAllLost(run[i])
  }

  // ----- the invariant -----

  /** Executed fences strictly increase per environment, and a mark ends all execution in it. */
  ghost predicate Ordered(h: seq<Event>) {
    forall i, j :: 0 <= i < j < |h| && h[i].env == h[j].env && h[j].Started? ==>
      h[i].Started? && h[i].fence < h[j].fence
  }

  ghost predicate Known(h: seq<Event>, env: ID) {
    exists i :: 0 <= i < |h| && h[i].env == env
  }

  /** A fence at least as high as every execution, flagged if any mark was made. */
  ghost predicate Covers(f: Fence, h: seq<Event>) {
    forall i :: 0 <= i < |h| && h[i].env == f.env ==> if h[i].Started? then h[i].fence <= f.highest else f.reconcile
  }

  /** A fence that may be executed next. */
  ghost predicate Exceeds(f: Fence, h: seq<Event>) {
    forall i :: 0 <= i < |h| && h[i].env == f.env ==> h[i].Started? && h[i].fence < f.highest
  }

  ghost predicate FileOk(s: State, env: ID) {
    && env in s.written && s.written[env].env == env && Covers(s.written[env], s.history)
    && (INDEX_NAME in s.dir && s.dir[INDEX_NAME].IndexFile? ==> env in s.dir[INDEX_NAME].envs)
    && (FileName(env) in s.dir && s.dir[FileName(env)].FenceFile? ==> s.dir[FileName(env)].fence == s.written[env])
  }

  ghost predicate PhaseOk(s: State) {
    match s.phase
    case Idle => true
    case Running(env) => Known(s.history, env)
    case Writing(f, run) =>
      && ValidFence(f) && (if run then Exceeds(f, s.history) else Covers(f, s.history) && f.reconcile && Known(s.history, f.env))
      && ReadIndex(s.dir).Trusted? && (INDEX_NAME in s.dir || s.history == [])
    case Indexing(f, run) =>
      && ValidFence(f) && (if run then Exceeds(f, s.history) else Known(s.history, f.env))
      && f.env in s.written && s.written[f.env] == f
      && FileName(f.env) in s.dir && s.dir[FileName(f.env)] == FenceFile(f)
      && (INDEX_NAME in s.dir || s.history == []) && (INDEX_NAME in s.dir ==> ReadIndex(s.dir).Trusted?)
  }

  ghost predicate Inv(s: State) {
    && Ordered(s.history) && PhaseOk(s)
    && (forall e :: Known(s.history, e) ==> ValidID(e) && FileOk(s, e))
  }

  // ----- every step keeps the invariant -----

  lemma AcceptInv(s: State, env: ID, fence: int)
    requires Inv(s) && NotAllLost(s) && Can(s, Accept(env, fence))
    ensures Inv(Do(s, Accept(env, fence)))
  {
    hide ValidUtf8, EncodeName, FileName, IsJson, Ordered;
    var s', f := Do(s, Accept(env, fence)), Fence(env, fence, false);
    forall i | 0 <= i < |s.history| && s.history[i].env == env
      ensures s.history[i].Started? && s.history[i].fence < fence
    {
      assert Known(s.history, env);
      assert FileOk(s, env);
      LoadKnown(s, env);
    }
    SameFiles(s, s');
  }

  /** Loading an environment with a history returns the fence last written, or fails; it starts
      over exactly when the whole directory was lost. */
  lemma LoadKnown(s: State, env: ID)
    requires Inv(s) && Known(s.history, env)
    ensures env in s.written && s.written[env].env == env && Covers(s.written[env], s.history)
    ensures NotAllLost(s) ==> Load(s.dir, env) in {Corrupt, Loaded(s.written[env], true)}
    ensures !NotAllLost(s) ==> Load(s.dir, env) == Loaded(Fence(env, 0, false), false)
  {
    hide ValidUtf8, EncodeName, FileName, IsJson, Ordered, Covers, PhaseOk;
    assert FileOk(s, env);
    assert s.history != [];
    FileIsNotIndex(env);
  }

  lemma SameFiles(s: State, s': State)
    requires s'.dir == s.dir && s'.history == s.history && s'.written == s.written
    requires forall e :: Known(s.history, e) ==> ValidID(e) && FileOk(s, e)
    ensures forall e :: Known(s'.history, e) ==> ValidID(e) && FileOk(s', e)
  {
    hide ValidID, Covers, Known;
    forall e | Known(s'.history, e) ensures FileOk(s', e) {
      assert FileOk(s, e);
    }
  }

  lemma StaleInv(s: State)
    requires Inv(s) && NotAllLost(s) && Can(s, Stale)
    ensures Inv(Do(s, Stale))
  {
    hide ValidUtf8, EncodeName, FileName, IsJson, Ordered;
    LoadKnown(s, s.phase.env);
    SameFiles(s, Do(s, Stale));
  }

  lemma KnownSnoc(h: seq<Event>, ev: Event, e: ID)
    ensures Known(h + [ev], e) <==> Known(h, e) || ev.env == e
  {
    var h' := h + [ev];
    assert h'[|h|] == ev;
    if Known(h, e) {
      var i :| 0 <= i < |h| && h[i].env == e;
      assert h'[i].env == e;
    }
  }

  lemma CoversSnoc(f: Fence, h: seq<Event>, ev: Event)
    requires Covers(f, h)
    requires ev.env == f.env ==> if ev.Started? then ev.fence <= f.highest else f.reconcile
    ensures Covers(f, h + [ev])
  {
  }

  lemma OrderedSnoc(h: seq<Event>, ev: Event)
    requires Ordered(h) && (ev.Started? ==> Exceeds(Fence(ev.env, ev.fence, false), h))
    ensures Ordered(h + [ev])
  {
    var h' := h + [ev];
    forall i, j | 0 <= i < j < |h'| && h'[i].env == h'[j].env && h'[j].Started?
      ensures h'[i].Started? && h'[i].fence < h'[j].fence
    {
      if j < |h| {
        assert h'[i] == h[i] && h'[j] == h[j];
      }
    }
  }

  lemma ReadSameIndex(d: Dir, d': Dir)
    requires INDEX_NAME in d && INDEX_NAME in d' && d[INDEX_NAME] == d'[INDEX_NAME]
    ensures ReadIndex(d) == ReadIndex(d')
  {
  }

  /** Putting a fence in place that covers the history so far. */
  lemma PlacedOk(s: State, f: Fence, e: ID)
    requires ValidFence(f) && Covers(f, s.history) && ValidID(e) && FileOk(s, e)
    ensures FileOk(s.(dir := WithFence(s.dir, f), written := s.written[f.env := f]), e)
  {
    hide ValidUtf8, EncodeName, FileName, IsJson, Covers;
    FileIsNotIndex(f.env);
    FilesDistinct(e, f.env);
  }

  lemma WriteFenceInv(s: State)
    requires Inv(s) && Can(s, WriteFence)
    ensures Inv(Do(s, WriteFence))
  {
    hide ValidUtf8, EncodeName, FileName, IsJson, ReadIndex, Ordered, Known, Covers, FileOk;
    var s', f, run := Do(s, WriteFence), s.phase.fence, s.phase.run;
    FileIsNotIndex(f.env);
    NothingKnown(s.history);
    if INDEX_NAME in s.dir {
      ReadSameIndex(s.dir, s'.dir);
    }
    if run {
      ExceedsCovers(f, s.history);
    } else {
      OrderedSnoc(s.history, Marked(f.env));
    }
    forall e ensures Known(s'.history, e) ==> ValidID(e) && FileOk(s', e) {
      KnownSnoc(s.history, Marked(f.env), e);
      if Known(s.history, e) {
        PlacedOk(s, f, e);
        if !run {
          MarkedOk(s.(dir := s'.dir, written := s'.written), f, e);
          FileOkIgnoresPhase(s.(dir := s'.dir, written := s'.written, history := s'.history), s', e);
        } else {
          FileOkIgnoresPhase(s.(dir := s'.dir, written := s'.written), s', e);
        }
      }
    }
    KnownSnoc(s.history, Marked(f.env), f.env);
  }

  lemma ExceedsCovers(f: Fence, h: seq<Event>)
    requires Exceeds(f, h)
    ensures Covers(f, h)
  {
  }

  lemma MarkedOk(s: State, f: Fence, e: ID)
    requires FileOk(s, e) && f.env in s.written && s.written[f.env] == f && f.reconcile
    ensures FileOk(s.(history := s.history + [Marked(f.env)]), e)
  {
    hide FileName, Covers;
    CoversSnoc(s.written[e], s.history, Marked(f.env));
  }

  lemma FileOkIgnoresPhase(s: State, s': State, e: ID)
    requires FileOk(s, e) && s' == s.(phase := s'.phase)
    ensures FileOk(s', e)
  {
    hide FileName, Covers;
  }

  /** Listing one more name keeps what is known about every environment. */
  lemma ListedOk(s: State, f: Fence, e: ID)
    requires ValidID(e) && FileOk(s, e) && ValidFence(f)
    requires INDEX_NAME in s.dir ==> ReadIndex(s.dir).Trusted?
    requires INDEX_NAME in s.dir || e == f.env
    ensures FileOk(s.(dir := WithIndex(s.dir, f.env)), e)
  {
    hide ValidUtf8, EncodeName, FileName, IsJson, Covers;
    FileIsNotIndex(e);
  }

  /** The environment just started is listed and its file is its fence. */
  lemma StartedOk(s: State, f: Fence)
    requires ValidFence(f) && Exceeds(f, s.history) && f.env in s.written && s.written[f.env] == f
    requires FileName(f.env) in s.dir && s.dir[FileName(f.env)] == FenceFile(f)
    requires INDEX_NAME in s.dir ==> ReadIndex(s.dir).Trusted?
    ensures FileOk(s.(dir := WithIndex(s.dir, f.env), history := s.history + [Started(f.env, f.highest)]), f.env)
  {
    hide ValidUtf8, EncodeName, FileName, IsJson, Covers, Exceeds;
    FileIsNotIndex(f.env);
    ExceedsCovers(f, s.history);
    CoversSnoc(f, s.history, Started(f.env, f.highest));
    assert HasFenceFile(s.dir);
  }

  lemma StartKeeps(s: State, f: Fence, e: ID)
    requires FileOk(s, e) && e != f.env
    ensures FileOk(s.(history := s.history + [Started(f.env, f.highest)]), e)
  {
    hide FileName, Covers;
    CoversSnoc(s.written[e], s.history, Started(f.env, f.highest));
  }

  lemma WriteIndexInv(s: State, reported: bool)
    requires Inv(s) && Can(s, WriteIndex(reported))
    ensures Inv(Do(s, WriteIndex(reported)))
  {
    hide ValidUtf8, EncodeName, FileName, IsJson, ReadIndex, Ordered, Known, Covers, Exceeds, FileOk, WithIndex;
    var s', f := Do(s, WriteIndex(reported)), s.phase.fence;
    var start := Started(f.env, f.highest);
    NothingKnown(s.history);
    forall e | Known(s.history, e) ensures ValidID(e) && FileOk(s.(dir := s'.dir), e) {
      ListedOk(s, f, e);
    }
    if s.phase.run && reported {
      ExceedsHeight(f, s.history);
      OrderedSnoc(s.history, start);
      StartedOk(s, f);
      forall e ensures Known(s'.history, e) ==> ValidID(e) && FileOk(s', e) {
        KnownSnoc(s.history, start, e);
        if Known(s.history, e) && e != f.env {
          StartKeeps(s.(dir := s'.dir), f, e);
          FileOkIgnoresPhase(s.(dir := s'.dir, history := s'.history), s', e);
        } else if e == f.env {
          FileOkIgnoresPhase(s.(dir := s'.dir, history := s'.history), s', e);
        }
      }
      KnownSnoc(s.history, start, f.env);
    } else {
      SameFiles(s.(dir := s'.dir), s');
    }
  }

  lemma NothingKnown(h: seq<Event>)
    ensures h == [] ==> forall e :: !Known(h, e)
  {
  }

  lemma ExceedsHeight(f: Fence, h: seq<Event>)
    requires Exceeds(f, h)
    ensures Exceeds(Fence(f.env, f.highest, false), h)
  {
  }

  /** Losing or damaging a file only ever removes evidence. */
  lemma LossInv(s: State, t: Step)
    requires Inv(s) && Can(s, t) && (t.Lose? || t.Damage?)
    ensures Inv(Do(s, t))
  {
    hide ValidUtf8, EncodeName, FileName, IsJson, ReadIndex, Ordered, Known, Covers, Exceeds;
    var s' := Do(s, t);
    forall e | Known(s'.history, e) ensures ValidID(e) && FileOk(s', e) {
      assert FileOk(s, e);
    }
  }

  lemma StepInv(s: State, t: Step)
    requires Inv(s) && NotAllLost(s) && Can(s, t)
    ensures Inv(Do(s, t))
  {
    hide ValidUtf8, EncodeName, FileName, IsJson, ReadIndex, Ordered, Covers, Exceeds, FileOk, Known, NotAllLost, Load;
    match t {
      case Accept(env, fence) => AcceptInv(s, env, fence);
      case WriteFence => WriteFenceInv(s);
      case WriteIndex(reported) => WriteIndexInv(s, reported);
      case Stale => StaleInv(s);
      case Lose(_) => LossInv(s, t);
      case Damage(_) => LossInv(s, t);
      case _ => SameFiles(s, Do(s, t));
    }
  }

  // ----- whole runs -----

  lemma {:induction false} RunInv(run: seq<State>, i: nat)
    requires IsRun(run) && i < |run| && Survives(run, i)
    ensures Inv(run[i])
  {
    hide Can, Do, NotAllLost, FileOk, ValidID;
    if i > 0 {
      hide Inv;
      RunInv(run, i - 1);
      assert Next(run[i - 1], run[i - 1 + 1]);
      var t :| Can(run[i - 1], t) && run[i] == Do(run[i - 1], t);
      StepInv(run[i - 1], t);
    }
  }

  /** Over every run, with crashes between any two writes and losses between operations, the
      fences executed in one environment strictly increase, and none is executed once the
      environment was marked. */
  lemma FencesIncrease(run: seq<State>, i: nat, a: nat, b: nat)
    requires IsRun(run) && i < |run| && Survives(run, i) && a < b < |run[i].history|
    requires run[i].history[a].env == run[i].history[b].env && run[i].history[b].Started?
    ensures run[i].history[a].Started? && run[i].history[a].fence < run[i].history[b].fence
  {
    hide FileOk, PhaseOk, Next, Survives;
    RunInv(run, i);
  }

  /** An accepted fence is never silently forgotten: it is returned, or the load fails, unless the
      manifest and every fence file are gone, and then it always is. */
  lemma LossIsDetected(run: seq<State>, i: nat, k: nat)
    requires IsRun(run) && i < |run| && Survives(run, i) && k < |run[i].history| && run[i].history[k].Started?
    ensures var s, e := run[i], run[i].history[k];
      && e.env in s.written && s.written[e.env].highest >= e.fence
      && (Load(s.dir, e.env) == Loaded(Fence(e.env, 0, false), false) <==> INDEX_NAME !in s.dir && !HasFenceFile(s.dir))
      && Load(s.dir, e.env) in {Corrupt, Loaded(s.written[e.env], true), Loaded(Fence(e.env, 0, false), false)}
  {
    hide FileOk, PhaseOk, Next, Load, Ordered, Survives, HasFenceFile;
    RunInv(run, i);
    LoadKnown(run[i], run[i].history[k].env);
  }

  // ----- what total loss does -----

  lemma RunGrows(run: seq<State>, t: Step)
    requires IsRun(run) && Can(run[|run| - 1], t)
    ensures IsRun(run + [Do(run[|run| - 1], t)])
  {
    hide Can, Do;
    var longer := run + [Do(run[|run| - 1], t)];
    forall i | 0 <= i < |longer| - 1 ensures Next(longer[i], longer[i + 1]) {
      if i < |run| - 1 {
        assert Next(run[i], run[i + 1]);
      }
    }
  }

  /** The directory after a first save. */
  function FirstSaved(env: ID, fence: int): Dir {
    map[FileName(env) := FenceFile(Fence(env, fence, false)), INDEX_NAME := IndexFile({env})]
  }

  /** An empty directory accepts any fence and executes it. */
  lemma FirstLease(run: seq<State>, env: ID, fence: int) returns (more: seq<State>)
    requires IsRun(run) && run[|run| - 1].phase.Idle? && run[|run| - 1].dir == map[] && ValidID(env) && fence >= 0
    ensures IsRun(more) && run <= more && more[|more| - 1].phase == Running(env)
    ensures more[|more| - 1].dir == FirstSaved(env, fence)
    ensures more[|more| - 1].history == run[|run| - 1].history + [Started(env, fence)]
  {
    hide ValidUtf8, EncodeName, FileName, IsJson, Next;
    var s, f := run[|run| - 1], Fence(env, fence, false);
    FileIsNotIndex(env);
    RunGrows(run, Accept(env, fence));
    var s1 := Do(s, Accept(env, fence));
    RunGrows(run + [s1], WriteFence);
    var s2 := Do(s1, WriteFence);
    assert FileName(env) in s2.dir && HasFenceFile(s2.dir);
    RunGrows(run + [s1] + [s2], WriteIndex(true));
    var s3 := Do(s2, WriteIndex(true));
    more := run + [s1] + [s2] + [s3];
    assert s3.dir == FirstSaved(env, fence);
  }

  /** Both files of the only environment go. */
  lemma LoseAll(run: seq<State>, env: ID, fence: int) returns (more: seq<State>)
    requires IsRun(run) && run[|run| - 1].phase == Running(env) && run[|run| - 1].dir == FirstSaved(env, fence) && ValidID(env)
    ensures IsRun(more) && run <= more && more[|more| - 1].phase.Idle? && more[|more| - 1].dir == map[]
    ensures more[|more| - 1].history == run[|run| - 1].history
  {
    hide ValidUtf8, EncodeName, FileName, IsJson, Next;
    var s := run[|run| - 1];
    FileIsNotIndex(env);
    RunGrows(run, Finish);
    var s1 := Do(s, Finish);
    RunGrows(run + [s1], Lose(FileName(env)));
    var s2 := Do(s1, Lose(FileName(env)));
    RunGrows(run + [s1] + [s2], Lose(INDEX_NAME));
    var s3 := Do(s2, Lose(INDEX_NAME));
    more := run + [s1] + [s2] + [s3];
    assert s3.dir == map[];
  }

  /** Losing everything makes the agent start over: for every environment and any two fences there is
      a run that executes the one and then the other, so fences need not increase. */
  lemma TotalLossForgets(env: ID, high: int, low: int) returns (run: seq<State>)
    requires ValidID(env) && 0 <= low <= high
    ensures IsRun(run) && run[|run| - 1].history == [Started(env, high), Started(env, low)]
    ensures !Ordered(run[|run| - 1].history)
  {
    hide Next, FirstSaved, ValidID;
    run := [State(map[], Idle, [], map[])];
    run := FirstLease(run, env, high);
    run := LoseAll(run, env, high);
    run := FirstLease(run, env, low);
    var h := run[|run| - 1].history;
    assert h[0] == Started(env, high) && h[1] == Started(env, low);
  }

  // ----- no false alarm -----

  /** Every load returns what was last written, or a first encounter. */
  ghost predicate Faithful(d: Dir, written: map<ID, Fence>) {
    && ReadIndex(d).Trusted?
    && forall e :: ValidID(e) ==>
      Load(d, e) == if e in written then Loaded(written[e], true) else Loaded(Fence(e, 0, false), false)
  }

  ghost predicate HalfSaved(s: State, d: Dir, w: map<ID, Fence>) {
    s.phase.Indexing? && Faithful(d, w) && s.dir == WithFence(d, s.phase.fence) && s.written == w[s.phase.fence.env := s.phase.fence]
  }

  ghost predicate Smooth(s: State) {
    match s.phase
    case Indexing(f, _) => ValidFence(f) && exists d, w :: HalfSaved(s, d, w)
    case Writing(f, _) => ValidFence(f) && Faithful(s.dir, s.written)
    case _ => Faithful(s.dir, s.written)
  }

  predicate Uninterrupted(t: Step) {
    t.Accept? || t.WriteFence? || (t.WriteIndex? && t.reported) || t.Stale? || t.Finish?
  }

  ghost predicate IsSmoothRun(run: seq<State>) {
    && run != [] && run[0] == State(map[], Idle, [], map[])
    && (forall i :: 0 <= i < |run| - 1 ==> SmoothNext(run[i], run[i + 1]))
  }

  ghost predicate SmoothNext(s: State, s': State) {
    exists t :: Uninterrupted(t) && Can(s, t) && s' == Do(s, t)
  }

  lemma SaveIsFaithful(d: Dir, w: map<ID, Fence>, f: Fence)
    requires Faithful(d, w) && ValidFence(f)
    ensures Faithful(WithIndex(WithFence(d, f), f.env), w[f.env := f])
  {
    hide ValidUtf8, Load, ReadIndex, WithIndex, WithFence;
    IndexSurvives(d, f);
    forall e | ValidID(e) ensures var d' := WithIndex(WithFence(d, f), f.env);
      Load(d', e) == if e in w[f.env := f] then Loaded(w[f.env := f][e], true) else Loaded(Fence(e, 0, false), false)
    {
      LoadAfterSave(d, f, e);
    }
  }

  lemma SmoothStep(s: State, t: Step)
    requires Smooth(s) && Uninterrupted(t) && Can(s, t)
    ensures Smooth(Do(s, t))
  {
    hide ValidUtf8, ReadIndex, WithIndex, WithFence, FileName, Faithful;
    var s' := Do(s, t);
    match t {
      case WriteFence =>
        assert HalfSaved(s', s.dir, s.written);
      case WriteIndex(_) =>
        var d, w :| HalfSaved(s, d, w);
        SaveIsFaithful(d, w, s.phase.fence);
      case _ =>
    }
  }

  lemma {:induction false} SmoothRun(run: seq<State>, i: nat)
    requires IsSmoothRun(run) && i < |run|
    ensures Smooth(run[i])
  {
    hide Can, Do, ValidID, FileName;
    if i > 0 {
      hide Smooth;
      SmoothRun(run, i - 1);
      assert SmoothNext(run[i - 1], run[i - 1 + 1]);
      var t :| Uninterrupted(t) && Can(run[i - 1], t) && run[i] == Do(run[i - 1], t);
      SmoothStep(run[i - 1], t);
    }
  }

  /** Without crashes, failures and losses no load ever fails. */
  lemma NoFalseAlarm(run: seq<State>, i: nat, env: ID)
    requires IsSmoothRun(run) && i < |run| && (run[i].phase.Idle? || run[i].phase.Running?) && ValidID(env)
    ensures var s := run[i];
      Load(s.dir, env) == if env in s.written then Loaded(s.written[env], true) else Loaded(Fence(env, 0, false), false)
  {
    hide Load, ValidID;
    SmoothRun(run, i);
  }
}
