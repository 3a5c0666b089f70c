/** Idempotent creation of a release's runtime container: any number of concurrent calls look up,
    create and adopt against an engine whose only promise is that container names are unique. */
module Docker {
  import opened Wrappers

  // ----- labels and names -----

  datatype LabelKey =
    | Managed | SchemaVersion | Kind | OwnerID | ProjectID | EnvironmentID | ServerID | DeploymentID | ReleaseID
    | JobID | AttemptID | FenceID | RuntimeInstanceID | CommitSHA | ImageDigest | ConfigDigest

  type Labels = map<LabelKey, string>

  datatype Identity = Identity(
    owner: string, project: string, environment: string, server: string, deployment: string, release: string,
    job: string, attempt: string, fence: string, runtimeInstance: string, commit: string, image: string, config: string)

  predicate IsAlnum(c: char) {
    'A' <= c <= 'Z' || 'a' <= c <= 'z' || '0' <= c <= '9'
  }

  predicate IsHex(s: string) {
    forall i :: 0 <= i < |s| ==> '0' <= s[i] <= '9' || 'a' <= s[i] <= 'f'
  }

  predicate OpaqueID(s: string) {
    0 < |s| <= 128 && IsAlnum(s[0]) && forall i :: 0 <= i < |s| ==> IsAlnum(s[i]) || s[i] == '-' || s[i] == '_'
  }

  /** An identifier cannot leave its place in a name, a path, a URL or a rule. */
  lemma OpaqueIsContained(s: string)
    requires OpaqueID(s)
    ensures 1 <= |s| <= 128 && s[0] != '-' && s[0] != '_'
    ensures forall i :: 0 <= i < |s| ==> s[i] !in {'/', ':', '.', '=', ',', ' ', '"', '`', '\\', '\n', '@', '#', '?', '&', '(', ')'}
  {
  }

  predicate Digest(s: string) {
    (|s| == 64 && IsHex(s)) || (|s| == 71 && s[..7] == "sha256:" && IsHex(s[7..]))
  }

  predicate Commit(s: string) {
    |s| == 40 && IsHex(s)
  }

  predicate ValidIdentity(id: Identity) {
    && OpaqueID(id.owner) && OpaqueID(id.project) && OpaqueID(id.environment) && OpaqueID(id.server)
    && OpaqueID(id.deployment) && OpaqueID(id.release) && OpaqueID(id.job) && OpaqueID(id.attempt)
    && OpaqueID(id.fence) && OpaqueID(id.runtimeInstance) && Commit(id.commit) && Digest(id.image) && Digest(id.config)
  }

  /** The creation labels, which are also the lookup selector. */
  function LabelsOf(id: Identity): Labels {
    map[
      Managed := "true", SchemaVersion := "v1", Kind := "release-runtime-container", OwnerID := id.owner,
      ProjectID := id.project, EnvironmentID := id.environment, ServerID := id.server, DeploymentID := id.deployment,
      ReleaseID := id.release, JobID := id.job, AttemptID := id.attempt, FenceID := id.fence,
      RuntimeInstanceID := id.runtimeInstance, CommitSHA := id.commit, ImageDigest := id.image, ConfigDigest := id.config]
  }

  /** The engine's filter: every pair of the selector is among the container's labels. */
  predicate Carries(labels: Labels, id: Identity) {
    var selector := LabelsOf(id);
    forall k :: k in selector ==> k in labels && labels[k] == selector[k]
  }

  /** Reads one label. */
  function Label(labels: Labels, k: LabelKey): string {
    if k in labels then labels[k] else ""
  }

  /** The identity a container's labels spell out, each field under its own key. */
  function ReadIdentity(labels: Labels): Identity {
    Identity(
      owner := Label(labels, OwnerID), project := Label(labels, ProjectID), environment := Label(labels, EnvironmentID),
      server := Label(labels, ServerID), deployment := Label(labels, DeploymentID), release := Label(labels, ReleaseID),
      job := Label(labels, JobID), attempt := Label(labels, AttemptID), fence := Label(labels, FenceID),
      runtimeInstance := Label(labels, RuntimeInstanceID), commit := Label(labels, CommitSHA),
      image := Label(labels, ImageDigest), config := Label(labels, ConfigDigest))
  }

  predicate ReleaseContainer(labels: Labels) {
    Label(labels, Managed) == "true" && Label(labels, SchemaVersion) == "v1" && Label(labels, Kind) == "release-runtime-container"
  }

  /** What the labels of an identity say under each key. */
  lemma LabelValue(id: Identity, k: LabelKey)
    ensures k in LabelsOf(id) && LabelsOf(id)[k] ==
      match k
      case Managed => "true"
      case SchemaVersion => "v1"
      case Kind => "release-runtime-container"
      case OwnerID => id.owner
      case ProjectID => id.project
      case EnvironmentID => id.environment
      case ServerID => id.server
      case DeploymentID => id.deployment
      case ReleaseID => id.release
      case JobID => id.job
      case AttemptID => id.attempt
      case FenceID => id.fence
      case RuntimeInstanceID => id.runtimeInstance
      case CommitSHA => id.commit
      case ImageDigest => id.image
      case ConfigDigest => id.config
  {
  }

  lemma NotEmpty(id: Identity, k: LabelKey)
    requires ValidIdentity(id)
    ensures k in LabelsOf(id) && LabelsOf(id)[k] != ""
  {
    hide LabelsOf;
    LabelValue(id, k);
  }

  /** Whoever is selected for an identity spells out exactly that identity. */
  lemma SelectedSpells(labels: Labels, id: Identity)
    requires Carries(labels, id)
    ensures ReleaseContainer(labels) && ReadIdentity(labels) == id
  {
    hide LabelsOf;
    forall k: LabelKey ensures k in LabelsOf(id) && Label(labels, k) == LabelsOf(id)[k] {
      LabelValue(id, k);
    }
    LabelValue(id, Managed);
    LabelValue(id, SchemaVersion);
    LabelValue(id, Kind);
    LabelValue(id, OwnerID);
    LabelValue(id, ProjectID);
    LabelValue(id, EnvironmentID);
    LabelValue(id, ServerID);
    LabelValue(id, DeploymentID);
    LabelValue(id, ReleaseID);
    LabelValue(id, JobID);
    LabelValue(id, AttemptID);
    LabelValue(id, FenceID);
    LabelValue(id, RuntimeInstanceID);
    LabelValue(id, CommitSHA);
    LabelValue(id, ImageDigest);
    LabelValue(id, ConfigDigest);
  }

  /** And whoever spells out a valid identity is selected for it. */
  lemma CarriesExactly(labels: Labels, id: Identity)
    requires ValidIdentity(id)
    ensures Carries(labels, id) <==> ReleaseContainer(labels) && ReadIdentity(labels) == id
  {
    hide LabelsOf, ValidIdentity;
    if Carries(labels, id) {
      SelectedSpells(labels, id);
    }
    if ReleaseContainer(labels) && ReadIdentity(labels) == id {
      forall k | k in LabelsOf(id) ensures k in labels && labels[k] == LabelsOf(id)[k] {
        LabelValue(id, k);
        NotEmpty(id, k);
        assert Label(labels, k) == LabelsOf(id)[k];
      }
    }
  }

  /** A container created for one identity is selected by no other. */
  lemma LabelsIdentify(a: Identity, b: Identity)
    ensures Carries(LabelsOf(a), b) <==> a == b
  {
    hide LabelsOf;
    if Carries(LabelsOf(a), b) {
      SelectedSpells(LabelsOf(a), b);
      assert Carries(LabelsOf(a), a);
      SelectedSpells(LabelsOf(a), a);
    }
  }

  const NAME_PREFIX := "autodeploy-rt-"

  function NameOf(id: Identity): string {
    NAME_PREFIX + id.runtimeInstance
  }

  // ----- the engine and its callers -----

  type ContainerID = nat
  type CallID = nat

  datatype Container = Container(name: string, labels: Labels)

  datatype Phase =
    | Finding
    | Creating
    | FindingAgain           // the name was taken
    | Starting(c: ContainerID)
    | Done(c: ContainerID)
    | Failed

  datatype Call = Call(id: Identity, phase: Phase)

  datatype World = World(engine: map<ContainerID, Container>, calls: map<CallID, Call>)

  function Selected(w: World, id: Identity): set<ContainerID> {
    set c | c in w.engine && Carries(w.engine[c].labels, id)
  }

  predicate NameTaken(w: World, name: string) {
    exists c :: c in w.engine && w.engine[c].name == name
  }

  predicate Unmanaged(labels: Labels) {
    !(Managed in labels && labels[Managed] == "true")
  }

  datatype Step =
    | Arrive(r: CallID, id: Identity)
    | Find(r: CallID, ready: bool)                        // and whether network and request checks pass
    | Create(r: CallID, c: ContainerID, answered: bool)   // and whether the answer came back
    | Start(r: CallID, ok: bool)
    | Fail(r: CallID)                                     // any other engine error
    | Foreign(c: ContainerID, other: Container)           // somebody else's container

  predicate At(w: World, r: CallID) {
    r in w.calls && !w.calls[r].phase.Done? && !w.calls[r].phase.Failed?
  }

  predicate Can(w: World, t: Step) {
    match t
    case Arrive(r, _) => r !in w.calls
    case Find(r, _) => At(w, r) && (w.calls[r].phase.Finding? || w.calls[r].phase.FindingAgain?)
    case Create(r, c, _) => At(w, r) && w.calls[r].phase.Creating? && c !in w.engine
    case Start(r, _) => At(w, r) && w.calls[r].phase.Starting?
    case Fail(r) => At(w, r)
    case Foreign(c, other) => c !in w.engine && !NameTaken(w, other.name) && Unmanaged(other.labels)
  }

  function Moved(w: World, r: CallID, p: Phase): World
    requires r in w.calls
  {
    w.(calls := w.calls[r := w.calls[r].(phase := p)])
  }

  /** The lookup's verdict: nothing, exactly one, or inconsistent state. */
  function Found(w: World, r: CallID, ready: bool): Phase
    requires r in w.calls
  {
    var matches := Selected(w, w.calls[r].id);
    if !ValidIdentity(w.calls[r].id) then Failed
    else if |matches| == 1 then
      var c :| c in matches;
      assert matches == {c} by { Singleton(matches, c); }
      Starting(c)
    else if |matches| > 1 || w.calls[r].phase.FindingAgain? || !ready then Failed
    else Creating
  }

  lemma Singleton<T>(s: set<T>, x: T)
    requires |s| == 1 && x in s
    ensures s == {x}
  {
    assert |s - {x}| == 0;
  }

  function Do(w: World, t: Step): World
    requires Can(w, t)
  {
    match t
    case Arrive(r, id) => w.(calls := w.calls[r := Call(id, Finding)])
    case Find(r, ready) => Moved(w, r, Found(w, r, ready))
    case Create(r, c, answered) =>
      var id := w.calls[r].id;
      if NameTaken(w, NameOf(id)) then Moved(w, r, FindingAgain)
      else Moved(w.(engine := w.engine[c := Container(NameOf(id), LabelsOf(id))]), r, if answered then Starting(c) else Failed)
    case Start(r, ok) => Moved(w, r, if ok then Done(w.calls[r].phase.c) else Failed)
    case Fail(r) => Moved(w, r, Failed)
    case Foreign(c, other) => w.(engine := w.engine[c := other])
  }

  ghost predicate Next(w: World, w': World) {
    exists t :: Can(w, t) && w' == Do(w, t)
  }

  ghost predicate UniqueNames(engine: map<ContainerID, Container>) {
    forall c, d :: c in engine && d in engine && engine[c].name == engine[d].name ==> c == d
  }

  ghost predicate Init(w: World) {
    w.calls == map[] && UniqueNames(w.engine) && forall c :: c in w.engine ==> Unmanaged(w.engine[c].labels)
  }

  ghost predicate IsRun(run: seq<World>) {
    && run != [] && Init(run[0])
    && (forall i :: 0 <= i < |run| - 1 ==> Next(run[i], run[i + 1]))
  }

  // ----- the invariant -----

  /** Whatever carries an identity's labels carries its name. */
  ghost predicate NamedByLabels(k: Container) {
    forall id :: Carries(k.labels, id) ==> k.name == NameOf(id)
  }

  ghost predicate CallOk(w: World, q: Call) {
    match q.phase
    case Starting(c) => c in w.engine && Carries(w.engine[c].labels, q.id)
    case Done(c) => c in w.engine && Carries(w.engine[c].labels, q.id)
    case FindingAgain => NameTaken(w, NameOf(q.id))
    case _ => true
  }

  ghost predicate Inv(w: World) {
    && UniqueNames(w.engine)
    && (forall c :: c in w.engine ==> NamedByLabels(w.engine[c]))
    && (forall r :: r in w.calls ==> CallOk(w, w.calls[r]))
  }

  lemma UnmanagedIsNobodys(labels: Labels, id: Identity)
    requires Unmanaged(labels)
    ensures !Carries(labels, id)
  {
    assert Managed in LabelsOf(id) && LabelsOf(id)[Managed] == "true";
  }

  lemma InitInv(w: World)
    requires Init(w)
    ensures Inv(w)
  {
    hide Carries;
    forall c, id | c in w.engine ensures !Carries(w.engine[c].labels, id) {
      UnmanagedIsNobodys(w.engine[c].labels, id);
    }
  }

  /** Nothing is ever removed, so what a call found stays found. */
  lemma CallStays(w: World, w': World, q: Call)
    requires CallOk(w, q) && forall c :: c in w.engine ==> c in w'.engine && w'.engine[c] == w.engine[c]
    ensures CallOk(w', q)
  {
    hide Carries, NameOf;
  }

  lemma AddInv(w: World, c: ContainerID, k: Container)
    requires Inv(w) && c !in w.engine && !NameTaken(w, k.name) && NamedByLabels(k)
    ensures Inv(w.(engine := w.engine[c := k]))
  {
    hide Carries, NameOf, NamedByLabels;
    var w' := w.(engine := w.engine[c := k]);
    forall r | r in w'.calls ensures CallOk(w', w'.calls[r]) {
      CallStays(w, w', w.calls[r]);
    }
  }

  lemma MoveInv(w: World, r: CallID, p: Phase)
    requires Inv(w) && r in w.calls && CallOk(w, w.calls[r].(phase := p))
    ensures Inv(Moved(w, r, p))
  {
    hide Carries, NameOf, NamedByLabels;
    var w' := Moved(w, r, p);
    forall q | q in w'.calls ensures CallOk(w', w'.calls[q]) {
      CallStays(w, w', if q == r then w.calls[r].(phase := p) else w.calls[q]);
    }
  }

  lemma CreateInv(w: World, r: CallID, c: ContainerID, answered: bool)
    requires Inv(w) && Can(w, Create(r, c, answered))
    ensures Inv(Do(w, Create(r, c, answered)))
  {
    hide Carries, NameOf, Inv, ValidIdentity, LabelsOf;
    var id := w.calls[r].id;
    if NameTaken(w, NameOf(id)) {
      MoveInv(w, r, FindingAgain);
    } else {
      var k := Container(NameOf(id), LabelsOf(id));
      forall other ensures Carries(k.labels, other) <==> other == id {
        LabelsIdentify(id, other);
      }
      AddInv(w, c, k);
      MoveInv(w.(engine := w.engine[c := k]), r, if answered then Starting(c) else Failed);
    }
  }

  lemma FoundOk(w: World, r: CallID, ready: bool)
    requires Can(w, Find(r, ready))
    ensures CallOk(w, w.calls[r].(phase := Found(w, r, ready)))
  {
    hide Carries, NameOf, ValidIdentity;
  }

  lemma StepInv(w: World, t: Step)
    requires Inv(w) && Can(w, t)
    ensures Inv(Do(w, t))
  {
    hide Carries, NameOf, NameTaken, ValidIdentity, LabelsOf, Found;
    match t {
      case Arrive(r, id) => ArriveInv(w, r, id);
      case Find(r, ready) => FoundOk(w, r, ready); MoveInv(w, r, Found(w, r, ready));
      case Create(r, c, answered) => CreateInv(w, r, c, answered);
      case Start(r, ok) =>
        assert CallOk(w, w.calls[r]);
        MoveInv(w, r, if ok then Done(w.calls[r].phase.c) else Failed);
      case Fail(r) => MoveInv(w, r, Failed);
      case Foreign(c, other) =>
        forall id ensures !Carries(other.labels, id) {
          UnmanagedIsNobodys(other.labels, id);
        }
        AddInv(w, c, other);
    }
  }

  lemma ArriveInv(w: World, r: CallID, id: Identity)
    requires Inv(w) && Can(w, Arrive(r, id))
    ensures Inv(Do(w, Arrive(r, id)))
  {
    hide Carries, NameOf, NamedByLabels;
    var w' := Do(w, Arrive(r, id));
    forall q | q in w'.calls ensures CallOk(w', w'.calls[q]) {
      if q != r {
        CallStays(w, w', w.calls[q]);
      }
    }
  }

  // ----- whole runs -----

  lemma {:induction false} RunInv(run: seq<World>, i: nat)
    requires IsRun(run) && i < |run|
    ensures Inv(run[i])
  {
    hide Can, Do, Inv, Init;
    if i == 0 {
      InitInv(run[0]);
    } else {
      RunInv(run, i - 1);
      assert Next(run[i - 1], run[i - 1 + 1]);
      var t :| Can(run[i - 1], t) && run[i] == Do(run[i - 1], t);
      StepInv(run[i - 1], t);
    }
  }

  lemma SelectedOnce(w: World, id: Identity, c: ContainerID, d: ContainerID)
    requires Inv(w) && c in Selected(w, id) && d in Selected(w, id)
    ensures c == d
  {
    hide Carries, NameOf;
    assert NamedByLabels(w.engine[c]) && NamedByLabels(w.engine[d]);
  }

  /** At most one container ever carries an identity's labels. */
  lemma OneContainer(run: seq<World>, i: nat, id: Identity, c: ContainerID, d: ContainerID)
    requires IsRun(run) && i < |run| && c in Selected(run[i], id) && d in Selected(run[i], id)
    ensures c == d
  {
    hide Carries, NameOf, Inv, Next;
    RunInv(run, i);
    SelectedOnce(run[i], id, c, d);
  }

  lemma {:induction false} ContainersStay(run: seq<World>, i: nat, j: nat, c: ContainerID)
    requires IsRun(run) && i <= j < |run| && c in run[i].engine
    ensures c in run[j].engine && run[j].engine[c] == run[i].engine[c]
    decreases j
  {
    hide Init, Carries, Found, NameTaken;
    if i < j {
      ContainersStay(run, i, j - 1, c);
      assert Next(run[j - 1], run[j - 1 + 1]);
    }
  }

  /** Successful calls for one identity, at any two moments of the run, return the same container;
      it carries exactly that identity's name and labels. */
  lemma SameContainer(run: seq<World>, i: nat, j: nat, r: CallID, q: CallID)
    requires IsRun(run) && i <= j < |run| && r in run[i].calls && q in run[j].calls
    requires run[i].calls[r].phase.Done? && run[j].calls[q].phase.Done? && run[i].calls[r].id == run[j].calls[q].id
    ensures run[i].calls[r].phase.c == run[j].calls[q].phase.c
    ensures var k, id := run[i].calls[r].phase.c, run[i].calls[r].id;
      k in run[i].engine && run[i].engine[k].name == NameOf(id) && Carries(run[i].engine[k].labels, id)
  {
    hide Carries, NameOf, Next, NameTaken, UniqueNames;
    RunInv(run, i);
    RunInv(run, j);
    var c, d, id := run[i].calls[r].phase.c, run[j].calls[q].phase.c, run[i].calls[r].id;
    assert CallOk(run[i], run[i].calls[r]) && CallOk(run[j], run[j].calls[q]);
    assert NamedByLabels(run[i].engine[c]);
    ContainersStay(run, i, j, c);
    OneContainer(run, j, id, c, d);
  }

  /** After a name conflict the call adopts the holder of the name exactly when the holder carries
      its own identity's labels; a foreign holder makes it fail. */
  lemma ConflictIsResolved(run: seq<World>, i: nat, r: CallID, ready: bool, c: ContainerID)
    requires IsRun(run) && i < |run| && Can(run[i], Find(r, ready)) && run[i].calls[r].phase.FindingAgain?
    requires ValidIdentity(run[i].calls[r].id)
    requires c in run[i].engine && run[i].engine[c].name == NameOf(run[i].calls[r].id)
    ensures Found(run[i], r, ready) == if Carries(run[i].engine[c].labels, run[i].calls[r].id) then Starting(c) else Failed
  {
    hide Carries, NameOf, Next, NameTaken, ValidIdentity;
    RunInv(run, i);
    var w, id := run[i], run[i].calls[r].id;
    forall d | d in Selected(w, id) ensures d == c {
      assert NamedByLabels(w.engine[d]);
    }
    if Carries(w.engine[c].labels, id) {
      assert c in Selected(w, id);
      assert Selected(w, id) == {c};
    } else {
      assert Selected(w, id) == {};
    }
  }

  /** Somebody holds the name for as long as the call has not looked again. */
  lemma ConflictHasHolder(run: seq<World>, i: nat, r: CallID)
    requires IsRun(run) && i < |run| && r in run[i].calls && run[i].calls[r].phase.FindingAgain?
    ensures NameTaken(run[i], NameOf(run[i].calls[r].id))
  {
    hide Carries, NameOf, Next, NameTaken;
    RunInv(run, i);
    assert CallOk(run[i], run[i].calls[r]);
  }

  // ----- one caller among others -----

  predicate Own(t: Step, r: CallID) {
    !t.Foreign? && t.r == r
  }

  class Client {
    var w: World
    ghost var run: seq<World>

    constructor (engine: map<ContainerID, Container>)
      requires Init(World(engine, map[]))
      ensures Valid() && w == World(engine, map[])
    {
      w := World(engine, map[]);
      run := [World(engine, map[])];
    }

    ghost predicate Valid()
      reads this
    {
      IsRun(run) && run[|run| - 1] == w
    }

    method Take(t: Step)
      requires Valid() && Can(w, t)
      modifies this
      ensures Valid() && w == Do(old(w), t) && run == old(run) + [w]
    {
      hide Can, Do, Init;
      ghost var before := run;
      w := Do(w, t);
      run := run + [w];
      forall i | 0 <= i < |run| - 1 ensures Next(run[i], run[i + 1]) {
        if i < |before| - 1 {
          assert Next(before[i], before[i + 1]);
        }
      }
    }

    /** What everybody else does between two of this caller's requests. */
    method Others(r: CallID, script: seq<Step>)
      requires Valid() && r in w.calls
      modifies this
      ensures Valid() && old(run) <= run && r in w.calls && w.calls[r] == old(w).calls[r]
      ensures script == [] ==> w == old(w)
    {
      hide IsRun, Carries, Found, NameTaken;
      var i := 0;
      while i < |script|
        invariant Valid() && old(run) <= run && r in w.calls && w.calls[r] == old(w).calls[r]
        invariant script == [] ==> w == old(w)
        decreases |script| - i
      {
        if Can(w, script[i]) && !Own(script[i], r) {
          Take(script[i]);
        }
        i := i + 1;
      }
    }

    /** An identifier the engine has not used. */
    method FreshID() returns (c: ContainerID)
      ensures c !in w.engine
    {
      c := 0;
      var todo := w.engine.Keys;
      while todo != {}
        invariant forall d :: d in w.engine && d !in todo ==> d < c
        decreases |todo|
      {
        var d :| d in todo;
        todo := todo - {d};
        if d >= c {
          c := d + 1;
        }
      }
    }

    /** Looks up, creates, and on a name conflict looks up again; starts what it has. `ready` is
        whether network and request pass their checks, `answered` and `started` whether the engine
        answers, and the gaps are what others do meanwhile. */
    method Ensure(r: CallID, id: Identity, ready: bool, answered: bool, started: bool,
                  gap1: seq<Step>, gap2: seq<Step>, gap3: seq<Step>)
      returns (result: Option<ContainerID>)
      requires Valid() && r !in w.calls
      modifies this
      ensures Valid() && old(run) <= run
      ensures result.Some? ==> r in w.calls && w.calls[r] == Call(id, Done(result.value))
      ensures result.Some? ==> result.value in w.engine && Carries(w.engine[result.value].labels, id)
      ensures result.Some? ==> var k := w.engine[result.value];
        ReleaseContainer(k.labels) && ReadIdentity(k.labels) == id && k.name == "autodeploy-rt-" + id.runtimeInstance
      ensures result.None? && ready && answered && started && ValidIdentity(id) ==>
        NameTaken(w, NameOf(id)) && Selected(w, id) == {}
      ensures !ValidIdentity(id) || !started ==> result.None?
      ensures gap1 == gap2 == gap3 == [] && Selected(old(w), id) != {} ==> w.engine == old(w).engine
      ensures gap1 == gap2 == gap3 == [] && started && ValidIdentity(id) && Selected(old(w), id) != {} ==> result.Some?
      ensures gap1 == gap2 == gap3 == [] && result.Some? && Selected(old(w), id) == {} ==>
        ready && !NameTaken(old(w), NameOf(id)) && result.value !in old(w).engine && w.engine.Keys == old(w).engine.Keys + {result.value}
    {
      hide IsRun, Carries, NameTaken, ValidIdentity, Selected, Found, LabelsOf, ReleaseContainer, ReadIdentity, NameOf;
      Take(Arrive(r, id));
      Others(r, gap1);
      if gap1 == [] {
        SameEngine(old(w), w, id);
      }
      Obtain(r, ready, answered, gap2, gap3);
      if !w.calls[r].phase.Starting? {
        return None;
      }
      result := StartContainer(r, started);
      if result.Some? {
        CarriesAll(result.value, id);
      }
    }

    /** Everything up to the container that is to be started. */
    method Obtain(r: CallID, ready: bool, answered: bool, gap2: seq<Step>, gap3: seq<Step>)
      requires Valid() && r in w.calls && w.calls[r].phase.Finding?
      modifies this
      ensures Valid() && old(run) <= run && r in w.calls && w.calls[r].id == old(w).calls[r].id
      ensures w.calls[r].phase.Starting? ==> ValidIdentity(w.calls[r].id)
      ensures !w.calls[r].phase.Starting? && ready && answered && ValidIdentity(w.calls[r].id) ==>
        NameTaken(w, NameOf(w.calls[r].id)) && Selected(w, w.calls[r].id) == {}
      ensures var id := w.calls[r].id;
        && (Selected(old(w), id) != {} ==> w.engine == old(w).engine && (ValidIdentity(id) ==> w.calls[r].phase.Starting?))
        && (gap2 == gap3 == [] && Selected(old(w), id) == {} && w.calls[r].phase.Starting? ==>
              && ready && !NameTaken(old(w), NameOf(id)) && w.calls[r].phase.c !in old(w).engine
              && w.engine == old(w).engine[w.calls[r].phase.c := Container(NameOf(id), LabelsOf(id))])
    {
      hide IsRun, Carries, NameTaken, ValidIdentity, Selected, Found, LabelsOf, NameOf;
      Lookup(r, ready);
      if !w.calls[r].phase.Creating? {
        return;
      }
      Others(r, gap2);
      if gap2 == [] {
        SameEngine(old(w), w, w.calls[r].id);
      }
      CreateContainer(r, answered);
      if w.calls[r].phase.FindingAgain? {
        Others(r, gap3);
        if gap2 == gap3 == [] {
          SameEngine(old(w), w, w.calls[r].id);
        }
        Lookup(r, ready);
      }
    }

    /** A container with an identity's labels spells out the identity and has its name. */
    lemma CarriesAll(c: ContainerID, id: Identity)
      requires Valid() && c in w.engine && Carries(w.engine[c].labels, id)
      ensures var k := w.engine[c];
        ReleaseContainer(k.labels) && ReadIdentity(k.labels) == id && k.name == "autodeploy-rt-" + id.runtimeInstance
    {
      hide Next, Init, Carries, ReleaseContainer, ReadIdentity, CallOk, UniqueNames;
      RunInv(run, |run| - 1);
      SelectedSpells(w.engine[c].labels, id);
      assert NamedByLabels(w.engine[c]);
    }

    /** A taken name, a container, or an answer that never came. */
    method CreateContainer(r: CallID, answered: bool)
      requires Valid() && r in w.calls && w.calls[r].phase.Creating?
      modifies this
      ensures Valid() && old(run) <= run
      ensures r in w.calls && w.calls[r].id == old(w).calls[r].id
      ensures w.calls[r].phase.FindingAgain? || w.calls[r].phase.Starting? || (w.calls[r].phase.Failed? && !answered)
      ensures var id := w.calls[r].id;
        && (NameTaken(old(w), NameOf(id)) <==> w.calls[r].phase.FindingAgain?)
        && (w.calls[r].phase.FindingAgain? ==> w.engine == old(w).engine)
        && (w.calls[r].phase.Starting? ==> var c := w.calls[r].phase.c;
              c !in old(w).engine && w.engine == old(w).engine[c := Container(NameOf(id), LabelsOf(id))])
    {
      hide IsRun, Carries, NameTaken, Found, LabelsOf;
      var c := FreshID();
      Take(Create(r, c, answered));
    }

    method StartContainer(r: CallID, started: bool) returns (result: Option<ContainerID>)
      requires Valid() && r in w.calls && w.calls[r].phase.Starting?
      modifies this
      ensures Valid() && old(run) <= run
      ensures started ==> result == Some(old(w).calls[r].phase.c)
      ensures w.engine == old(w).engine
      ensures result.Some? ==> started && r in w.calls && w.calls[r] == Call(old(w).calls[r].id, Done(result.value))
      ensures result.Some? ==> result.value in w.engine && Carries(w.engine[result.value].labels, old(w).calls[r].id)
    {
      hide IsRun, Carries, NameTaken, Found;
      Take(Start(r, started));
      Settled(r);
      result := if started then Some(w.calls[r].phase.c) else None;
    }

    method Lookup(r: CallID, ready: bool)
      requires Valid() && Can(w, Find(r, ready))
      modifies this
      ensures Valid() && old(run) <= run
      ensures r in w.calls && w.calls[r].id == old(w).calls[r].id
      ensures w.calls[r].phase.Starting? || w.calls[r].phase.Failed? || (w.calls[r].phase.Creating? && old(w).calls[r].phase.Finding?)
      ensures w.calls[r].phase.Failed? && ready && ValidIdentity(w.calls[r].id) ==>
        NameTaken(w, NameOf(w.calls[r].id)) && Selected(w, w.calls[r].id) == {}
      ensures w.engine == old(w).engine && Selected(w, w.calls[r].id) == Selected(old(w), w.calls[r].id)
      ensures w.calls[r].phase.Starting? ==> ValidIdentity(w.calls[r].id) && w.calls[r].phase.c in Selected(w, w.calls[r].id)
      ensures w.calls[r].phase.Creating? ==> ready && ValidIdentity(w.calls[r].id) && Selected(w, w.calls[r].id) == {}
      ensures ValidIdentity(w.calls[r].id) && Selected(w, w.calls[r].id) != {} ==> w.calls[r].phase.Starting?
    {
      hide Carries, ValidIdentity, Next, Init;
      RunInv(run, |run| - 1);
      LookupFailure(w, r, ready);
      Take(Find(r, ready));
    }

    lemma Settled(r: CallID)
      requires Valid() && r in w.calls
      ensures CallOk(w, w.calls[r])
    {
      hide CallOk, Next, Init;
      RunInv(run, |run| - 1);
    }
  }

  lemma SameEngine(w: World, w': World, id: Identity)
    requires w'.engine == w.engine
    ensures Selected(w', id) == Selected(w, id) && (NameTaken(w', NameOf(id)) <==> NameTaken(w, NameOf(id)))
  {
    hide Carries, NameOf;
  }

  /** A lookup with everything in order fails only on a foreign name. */
  lemma LookupFailure(w: World, r: CallID, ready: bool)
    requires Inv(w) && Can(w, Find(r, ready))
    ensures ValidIdentity(w.calls[r].id) && Selected(w, w.calls[r].id) != {} ==> Found(w, r, ready).Starting?
    ensures Found(w, r, ready).Failed? && ready && ValidIdentity(w.calls[r].id) ==>
      NameTaken(w, NameOf(w.calls[r].id)) && Selected(w, w.calls[r].id) == {}
  {
    hide Carries, NameTaken, ValidIdentity;
    var matches := Selected(w, w.calls[r].id);
    if c :| c in matches {
      forall d | d in matches ensures d == c {
        SelectedOnce(w, w.calls[r].id, c, d);
      }
      assert matches == {c};
    }
    assert CallOk(w, w.calls[r]);
  }
}
