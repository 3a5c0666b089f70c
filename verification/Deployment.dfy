/** The deployment aggregate: an event-sourced lifecycle, its validator and its snapshots. */
module Deployment {
  import opened Wrappers

  /** `Unknown` is any text outside the lifecycle; the empty one stands before creation. */
  datatype Status =
    | Queued | Assigned | Fetching | Building | Starting | HealthChecking | Activating | Healthy
    | Failed | Cancelled | Superseded | RolledBack
    | Unknown(text: string)

  const NONE := Unknown("")

  datatype Identity = Identity(deployment: string, project: string, environment: string, server: string, commit: string)

  /** Nanoseconds since the zero time. */
  type Time = int

  datatype Event = Event(from: Status, to: Status, at: Time)

  datatype Deployment = Deployment(
    identity: Identity, status: Status, createdAt: Time, updatedAt: Time, revision: nat, events: seq<Event>)

  const SCHEMA: nat := 1

  datatype Snapshot = Snapshot(version: nat, content: Deployment)

  predicate ValidIdentity(id: Identity) {
    id.deployment != "" && id.project != "" && id.environment != "" && id.server != "" && id.commit != ""
  }

  predicate Known(s: Status) {
    !s.Unknown?
  }

  predicate IsTerminal(s: Status) {
    s in {Failed, Cancelled, Superseded, RolledBack}
  }

  predicate CanTransition(from: Status, to: Status) {
    match from
    case Queued => to in {Assigned, Cancelled, Superseded}
    case Assigned => to in {Fetching, Cancelled, Failed}
    case Fetching => to in {Building, Cancelled, Failed}
    case Building => to in {Starting, Cancelled, Failed}
    case Starting => to in {HealthChecking, Cancelled, Failed}
    case HealthChecking => to in {Activating, Cancelled, Failed}
    case Activating => to in {Healthy, Failed}
    case Healthy => to == RolledBack
    case _ => false
  }

  /** Position on the execution path, if the status is on it. */
  function ExecutionOrder(s: Status): Option<nat> {
    match s
    case Queued => Some(0)
    case Assigned => Some(1)
    case Fetching => Some(2)
    case Building => Some(3)
    case Starting => Some(4)
    case HealthChecking => Some(5)
    case Activating => Some(6)
    case Healthy => Some(7)
    case _ => None
  }

  /** Whole microseconds, rounded down. */
  function CanonicalTime(t: Time): Time {
    t / 1000 * 1000
  }

  // ----- validity -----

  predicate Follows(previous: Event, e: Event) {
    && e.at != 0 && e.at >= previous.at
    && e.from == previous.to && Known(e.to) && CanTransition(previous.to, e.to)
  }

  predicate Valid(d: Deployment) {
    && ValidIdentity(d.identity) && Known(d.status)
    && d.createdAt != 0 && d.updatedAt != 0 && d.updatedAt >= d.createdAt
    && d.revision == |d.events| > 0
    && d.events[0] == Event(NONE, Queued, d.createdAt)
    && (forall i :: 0 < i < |d.events| ==> Follows(d.events[i - 1], d.events[i]))
    && d.events[|d.events| - 1].to == d.status && d.events[|d.events| - 1].at == d.updatedAt
  }

  /** The validator, which replays the events. */
  method Validate(d: Deployment) returns (ok: bool)
    ensures ok == Valid(d)
  {
    if !ValidIdentity(d.identity) || !Known(d.status) {
      return false;
    }
    if d.createdAt == 0 || d.updatedAt == 0 || d.updatedAt < d.createdAt {
      return false;
    }
    if d.revision == 0 || d.revision != |d.events| {
      return false;
    }
    var first := d.events[0];
    if first.from != NONE || first.to != Queued || first.at != d.createdAt {
      return false;
    }
    var current, previousAt, i := Queued, d.createdAt, 1;
    while i < |d.events|
      invariant 1 <= i <= |d.events|
      invariant current == d.events[i - 1].to && previousAt == d.events[i - 1].at
      invariant forall j :: 0 < j < i ==> Follows(d.events[j - 1], d.events[j])
    {
      var e := d.events[i];
      if e.at == 0 || e.at < previousAt {
        return false;
      }
      if e.from != current || !Known(e.to) || !CanTransition(current, e.to) {
        return false;
      }
      current, previousAt, i := e.to, e.at, i + 1;
    }
    ok := current == d.status && previousAt == d.updatedAt;
  }

  // ----- operations -----

  function New(id: Identity, createdAt: Time): Option<Deployment> {
    if !ValidIdentity(id) || createdAt == 0 then None
    else
      var at := CanonicalTime(createdAt);
      Some(Deployment(id, Queued, at, at, 1, [Event(NONE, Queued, at)]))
  }

  datatype Refusal = InvalidDeployment | UnknownStatus | InvalidTimestamp | TerminalState | InvalidTransition

  function Transition(d: Deployment, to: Status, at: Time): (Deployment, Option<Refusal>) {
    var t := CanonicalTime(at);
    if !Valid(d) then (d, Some(InvalidDeployment))
    else if !Known(to) then (d, Some(UnknownStatus))
    else if to == d.status then (d, None)
    else if t == 0 || t < d.updatedAt then (d, Some(InvalidTimestamp))
    else if IsTerminal(d.status) then (d, Some(TerminalState))
    else if !CanTransition(d.status, to) then (d, Some(InvalidTransition))
    else
      (d.(status := to, updatedAt := t, revision := d.revision + 1, events := d.events + [Event(d.status, to, t)]), None)
  }

  function TakeSnapshot(d: Deployment): Option<Snapshot> {
    if Valid(d) then Some(Snapshot(SCHEMA, d)) else None
  }

  function CanonicalEvents(events: seq<Event>): seq<Event> {
    seq(|events|, i requires 0 <= i < |events| => events[i].(at := CanonicalTime(events[i].at)))
  }

  function Rehydrate(s: Snapshot): Option<Deployment> {
    if s.version != SCHEMA then None
    else
      var c := s.content;
      var d := c.(createdAt := CanonicalTime(c.createdAt), updatedAt := CanonicalTime(c.updatedAt), events := CanonicalEvents(c.events));
      if Valid(d) then Some(d) else None
  }

  /** Restoring rewrites the timestamps of the caller's own events. */
  method RehydrateInPlace(version: nat, header: Deployment, events: array<Event>) returns (r: Option<Deployment>)
    modifies events
    ensures r == Rehydrate(Snapshot(version, header.(events := old(events[..]))))
    ensures events[..] == if version == SCHEMA then CanonicalEvents(old(events[..])) else old(events[..])
  {
    if version != SCHEMA {
      return None;
    }
    var i := 0;
    while i < events.Length
      invariant 0 <= i <= events.Length
      invariant forall j :: 0 <= j < i ==> events[j] == old(events[j]).(at := CanonicalTime(old(events[j]).at))
      invariant forall j :: i <= j < events.Length ==> events[j] == old(events[j])
    {
      events[i] := events[i].(at := CanonicalTime(events[i].at));
      i := i + 1;
    }
    assert events[..] == CanonicalEvents(old(events[..]));
    var d := header.(createdAt := CanonicalTime(header.createdAt), updatedAt := CanonicalTime(header.updatedAt), events := events[..]);
    var ok := Validate(d);
    r := if ok then Some(d) else None;
  }

  // ----- what every deployment satisfies -----

  predicate Canonical(d: Deployment) {
    && d.createdAt % 1000 == 0 && d.updatedAt % 1000 == 0
    && forall i :: 0 <= i < |d.events| ==> d.events[i].at % 1000 == 0
  }

  /** A new deployment is valid exactly when its creation time does not round down to zero: the
      zero test comes before the rounding, so the first microsecond slips through. */
  lemma NewIsValid(id: Identity, createdAt: Time)
    requires New(id, createdAt).Some?
    ensures Canonical(New(id, createdAt).value)
    ensures Valid(New(id, createdAt).value) <==> !(0 < createdAt < 1000)
  {
  }

  /** A concrete creation whose deployment its own validator rejects. */
  lemma FirstMicrosecond(id: Identity)
    requires ValidIdentity(id)
    ensures New(id, 1).Some? && !Valid(New(id, 1).value)
  {
    assert CanonicalTime(1) == 0;
  }

  lemma TransitionKeeps(d: Deployment, to: Status, at: Time)
    requires Valid(d) && Canonical(d)
    ensures var (d', refusal) := Transition(d, to, at);
      && Valid(d') && Canonical(d') && d'.identity == d.identity && d.events <= d'.events
      && (refusal.Some? ==> d' == d)
      && (refusal.None? ==> d'.status == to)
      && (refusal.None? && to != d.status ==> d'.revision == d.revision + 1)
  {
    var (d', refusal) := Transition(d, to, at);
    if d' != d {
      assert d'.events[..|d.events|] == d.events;
      forall i | 0 < i < |d'.events| ensures Follows(d'.events[i - 1], d'.events[i]) {
        if i < |d.events| {
          assert Follows(d.events[i - 1], d.events[i]);
        }
      }
    }
  }

  /** The legal moves: one step along the path; cancellation before activation; failure while
      assigned and not yet healthy; supersession of what is still queued; rollback of what is healthy. */
  lemma LegalMoves(from: Status, to: Status)
    ensures CanTransition(from, to) <==>
      && ExecutionOrder(from).Some?
      && var n := ExecutionOrder(from).value;
         if ExecutionOrder(to).Some? then ExecutionOrder(to).value == n + 1
         else (to == Cancelled && n <= 5) || (to == Failed && 1 <= n <= 6) || (to == Superseded && n == 0) || (to == RolledBack && n == 7)
  {
  }

  /** A request is accepted exactly when the deployment is already there, or the move is legal and not
      dated, to the microsecond, at zero or before the last change; it is then recorded at that time,
      and nothing earlier changes. */
  lemma TransitionExactly(d: Deployment, to: Status, at: Time)
    requires Valid(d)
    ensures var (d', refusal) := Transition(d, to, at);
      var t := at - at % 1000;
      && (refusal.None? <==> Known(to) && (to == d.status || (t != 0 && t >= d.updatedAt && CanTransition(d.status, to))))
      && (refusal.Some? || to == d.status ==> d' == d)
      && (refusal.None? && to != d.status ==>
            d' == Deployment(d.identity, to, d.createdAt, t, d.revision + 1, d.events + [Event(d.status, to, t)]))
      && (refusal == Some(UnknownStatus) <==> !Known(to))
      && (refusal == Some(InvalidTimestamp) <==> Known(to) && to != d.status && (t == 0 || t < d.updatedAt))
      && (refusal == Some(TerminalState) ==> forall other :: !CanTransition(d.status, other))
  {
    assert at / 1000 * 1000 == at - at % 1000;
  }

  /** A broken deployment refuses every request and has no snapshot. */
  lemma BrokenIsRefused(d: Deployment, to: Status, at: Time)
    requires !Valid(d)
    ensures Transition(d, to, at) == (d, Some(InvalidDeployment)) && TakeSnapshot(d).None?
  {
  }

  /** A creation needs an identity and a time, and starts the history at that time. */
  lemma NewExactly(id: Identity, createdAt: Time)
    ensures New(id, createdAt).Some? <==> ValidIdentity(id) && createdAt != 0
    ensures New(id, createdAt).Some? ==> var d, t := New(id, createdAt).value, createdAt - createdAt % 1000;
      d.identity == id && d.status == Queued && d.createdAt == t && d.updatedAt == t && d.events == [Event(NONE, Queued, t)]
  {
    assert createdAt / 1000 * 1000 == createdAt - createdAt % 1000;
  }

  datatype Request = Request(to: Status, at: Time)

  function Apply(d: Deployment, requests: seq<Request>): Deployment
    decreases |requests|
  {
    if requests == [] then d else Apply(Transition(d, requests[0].to, requests[0].at).0, requests[1..])
  }

  /** Whatever is requested, in whatever order, the deployment stays valid. */
  lemma {:induction false} ReachableIsValid(d: Deployment, requests: seq<Request>)
    requires Valid(d) && Canonical(d)
    ensures Valid(Apply(d, requests)) && Canonical(Apply(d, requests)) && d.events <= Apply(d, requests).events
    decreases |requests|
  {
    hide Valid, Canonical, Transition;
    if requests != [] {
      TransitionKeeps(d, requests[0].to, requests[0].at);
      ReachableIsValid(Transition(d, requests[0].to, requests[0].at).0, requests[1..]);
    }
  }

  /** A snapshot of a deployment with canonical times restores exactly that deployment. */
  lemma SnapshotRoundTrip(d: Deployment)
    requires Valid(d) && Canonical(d)
    ensures TakeSnapshot(d).Some? && Rehydrate(TakeSnapshot(d).value) == Some(d)
  {
    assert CanonicalEvents(d.events) == d.events;
  }

  /** Every deployment reachable from a creation restores from its snapshot, unless it was created
      in the first microsecond. */
  lemma ReachableRoundTrip(id: Identity, createdAt: Time, requests: seq<Request>)
    requires New(id, createdAt).Some? && !(0 < createdAt < 1000)
    ensures var d := Apply(New(id, createdAt).value, requests);
      Valid(d) && TakeSnapshot(d).Some? && Rehydrate(TakeSnapshot(d).value) == Some(d)
  {
    hide Valid, Canonical, New, Rehydrate, TakeSnapshot;
    NewIsValid(id, createdAt);
    ReachableIsValid(New(id, createdAt).value, requests);
    SnapshotRoundTrip(Apply(New(id, createdAt).value, requests));
  }

  lemma RestoredIsCanonical(s: Snapshot)
    requires Rehydrate(s).Some?
    ensures Valid(Rehydrate(s).value) && Canonical(Rehydrate(s).value)
  {
  }

  /** A snapshot is restored exactly if it has the current version and is valid once its times are
      rounded; nothing else about it changes. */
  lemma RehydrateExactly(s: Snapshot)
    ensures Rehydrate(s).Some? ==> var d, c := Rehydrate(s).value, s.content;
      && s.version == 1 && d.identity == c.identity && d.status == c.status && d.revision == c.revision
      && d.createdAt == c.createdAt - c.createdAt % 1000 && d.updatedAt == c.updatedAt - c.updatedAt % 1000
      && |d.events| == |c.events| && forall i :: 0 <= i < |d.events| ==>
           d.events[i] == Event(c.events[i].from, c.events[i].to, c.events[i].at - c.events[i].at % 1000)
    ensures s.version == 1 && Canonical(s.content) && Valid(s.content) ==> Rehydrate(s) == Some(s.content)
  {
    Rounded(s.content.createdAt);
    Rounded(s.content.updatedAt);
    forall t: Time ensures CanonicalTime(t) == t - t % 1000 {
      Rounded(t);
    }
    if Canonical(s.content) {
      assert CanonicalEvents(s.content.events) == s.content.events;
    }
  }

  lemma Rounded(t: Time)
    ensures CanonicalTime(t) == t - t % 1000
  {
  }

  /** Whatever a snapshot restores to, and whatever is requested of it afterwards, restores again. */
  lemma RestoredRoundTrip(s: Snapshot, requests: seq<Request>)
    requires Rehydrate(s).Some?
    ensures var d := Apply(Rehydrate(s).value, requests);
      Valid(d) && TakeSnapshot(d).Some? && Rehydrate(TakeSnapshot(d).value) == Some(d)
  {
    hide Valid, Canonical, Rehydrate, TakeSnapshot;
    RestoredIsCanonical(s);
    ReachableIsValid(Rehydrate(s).value, requests);
    SnapshotRoundTrip(Apply(Rehydrate(s).value, requests));
  }

  /** An event's place in the history is its status's place on the path; a status off the path
      ends the history. */
  lemma {:induction false} EventOrder(d: Deployment, i: nat)
    requires Valid(d) && i < |d.events|
    ensures ExecutionOrder(d.events[i].to).Some? ==> ExecutionOrder(d.events[i].to).value == i
    ensures ExecutionOrder(d.events[i].to).None? ==> i == |d.events| - 1 && IsTerminal(d.events[i].to)
    ensures i <= 8
  {
    if i > 0 {
      EventOrder(d, i - 1);
      assert Follows(d.events[i - 1], d.events[i]);
    }
    if i + 1 < |d.events| {
      assert Follows(d.events[i + 1 - 1], d.events[i + 1]);
    }
  }

  /** In every valid deployment the status decides the revision on the path, every status off the
      path is final, and there are never more than nine revisions. */
  lemma RevisionFollowsStatus(d: Deployment)
    requires Valid(d)
    ensures ExecutionOrder(d.status).Some? ==> d.revision == ExecutionOrder(d.status).value + 1
    ensures ExecutionOrder(d.status).None? ==> IsTerminal(d.status) && forall to :: !CanTransition(d.status, to)
    ensures d.revision <= 9
  {
    EventOrder(d, |d.events| - 1);
  }
}
