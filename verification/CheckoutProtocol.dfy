/** Any number of begin, start and close requests, interleaved at every lock boundary with registry
    sweeps, invalidations and background revocations. */
module CheckoutProtocol {
  import opened Wrappers
  import opened Checkout

  type RequestID = nat

  /** Where a start request is. `Starting` to `Delivered` carry the lease it activated. */
  datatype StartPhase =
    | Claiming
    | Refused
    | Activating
    | Minting                       // the store has let the mint attempt begin
    | Starting(lease: LeaseID)
    | Abandoning(lease: LeaseID)    // Start failed; the lease is being closed
    | Releasing
    | Installing(lease: LeaseID)
    | Delivering(lease: LeaseID)
    | Delivered(lease: LeaseID)
    | Undelivered(lease: LeaseID)

  /** Where a close request is; `seen` is the lease its snapshot showed. */
  datatype ClosePhase =
    | Matching
    | Failed
    | Closing(seen: Option<LeaseID>)
    | Marking(seen: Option<LeaseID>)
    | Finished(seen: Option<LeaseID>)
    | AlreadyClosed

  datatype Request =
    | StartRequest(id: ID, key: Key, start: StartPhase)
    | CloseRequest(id: ID, key: Key, close: ClosePhase)

  datatype Delivery = Delivery(id: ID, lease: LeaseID)

  datatype State = State(
    entries: Entries, leases: map<LeaseID, Lease>, active: map<ID, LeaseID>, requests: map<RequestID, Request>,
    begun: set<ID>, marked: set<ID>, deliveries: seq<Delivery>, handouts: seq<LeaseID>, store: Rows)

  datatype Step =
    | Begin(id: ID, key: Key, expires: int)
    | Arrive(r: RequestID, request: Request)
    | Sweep(id: ID)
    | Claim(r: RequestID)
    | BeginMint(r: RequestID, a: Answer, closed: bool)
    | Activate(r: RequestID, l: LeaseID, a: Answer, closed: bool)
    | Start(r: RequestID, a: Answer)
    | Abandon(r: RequestID, revoked: bool, closed: bool)
    | Release(r: RequestID)
    | Install(r: RequestID)
    | Deliver(r: RequestID)
    | Match(r: RequestID)
    | Close(r: RequestID, ok: bool, closed: bool, revoked: bool)
    | Mark(r: RequestID)
    | Lapse(id: ID, to: Stage)       // an authority was disabled, or time ran out
    | Invalidate(id: ID)
    | Revoke(l: LeaseID)
    | Broker(l: LeaseID)             // the token goes to a local process through the one-use pipe

  predicate AtStart(s: State, r: RequestID) {
    r in s.requests && s.requests[r].StartRequest?
  }

  predicate AtClose(s: State, r: RequestID) {
    r in s.requests && s.requests[r].CloseRequest?
  }

  /** The steps of start requests, of close requests, and of everybody and everything else. */
  predicate StartStep(t: Step) {
    t.Claim? || t.BeginMint? || t.Activate? || t.Start? || t.Abandon? || t.Release? || t.Install? || t.Deliver?
  }

  predicate CloseStep(t: Step) {
    t.Match? || t.Close? || t.Mark?
  }

  predicate Can(s: State, t: Step) {
    if StartStep(t) then AtStart(s, t.r) && CanStart(s, t)
    else if CloseStep(t) then AtClose(s, t.r) && CanClose(s, t)
    else CanOther(s, t)
  }

  predicate CanStart(s: State, t: Step)
    requires StartStep(t) && AtStart(s, t.r)
  {
    match t
    case Claim(r) => s.requests[r].start.Claiming?
    case BeginMint(r, a, _) =>
      s.requests[r].start.Activating? && Allows(s.store, s.requests[r].id, a, Reserved)
    case Activate(r, l, a, _) =>
      && s.requests[r].start.Minting? && l !in s.leases
      && Allows(s.store, s.requests[r].id, a, Stage.Minting)
    case Start(r, a) =>
      && s.requests[r].start.Starting? && s.requests[r].start.lease in s.leases
      && (a != No ==> Usable(s.leases[s.requests[r].start.lease])) && Allows(s.store, s.requests[r].id, a, Active)
    case Abandon(r, _, _) => s.requests[r].start.Abandoning? && s.requests[r].start.lease in s.leases
    case Release(r) => s.requests[r].start.Releasing?
    case Install(r) => s.requests[r].start.Installing?
    case Deliver(r) => s.requests[r].start.Delivering? && s.requests[r].start.lease in s.leases
  }

  predicate CanClose(s: State, t: Step)
    requires CloseStep(t) && AtClose(s, t.r)
  {
    match t
    case Match(r) => s.requests[r].close.Matching?
    case Close(r, ok, closed, revoked) =>
      && s.requests[r].close.Closing?
      && (ok ==> closed && s.requests[r].id in s.store && (Open(s.store[s.requests[r].id]) || s.store[s.requests[r].id] == Consumed))
      && (s.requests[r].close.seen.Some? ==> s.requests[r].close.seen.value in s.leases)
      && (ok && s.requests[r].close.seen.Some? ==> revoked)
    case Mark(r) => s.requests[r].close.Marking?
  }

  predicate CanOther(s: State, t: Step) {
    match t
    case Begin(id, _, _) => id !in s.begun
    case Arrive(r, q) => r !in s.requests && (if q.StartRequest? then q.start.Claiming? else q.close.Matching?)
    case Sweep(id) => id in s.entries
    case Lapse(id, to) =>
      id in s.store && Open(s.store[id]) && (to == Invalidated || (to == Expired && s.store[id] != Running))
    case Invalidate(id) => id in s.active && s.active[id] in s.leases
    case Revoke(l) => l in s.leases && s.leases[l].invalidated
    case Broker(l) => l in s.leases && Usable(s.leases[l])
    case _ => false
  }

  function At(s: State, r: RequestID, p: StartPhase): State
    requires AtStart(s, r)
  {
    s.(requests := s.requests[r := s.requests[r].(start := p)])
  }

  function AtPhase(s: State, r: RequestID, p: ClosePhase): State
    requires AtClose(s, r)
  {
    s.(requests := s.requests[r := s.requests[r].(close := p)])
  }

  function Drop(s: State, l: LeaseID): State
    requires l in s.leases
  {
    s.(leases := s.leases[l := s.leases[l].(live := false)])
  }

  function Do(s: State, t: Step): State
    requires Can(s, t)
  {
    if StartStep(t) then DoStart(s, t) else if CloseStep(t) then DoClose(s, t) else DoOther(s, t)
  }

  function DoStart(s: State, t: Step): (s': State)
    requires StartStep(t) && AtStart(s, t.r) && CanStart(s, t)
    ensures AtStart(s', t.r) && s'.requests == s.requests[t.r := s.requests[t.r].(start := s'.requests[t.r].start)]
    ensures s'.begun == s.begun && s'.marked == s.marked
    ensures !t.Activate? && !t.Deliver? && !t.Abandon? ==> s'.leases == s.leases
    ensures !t.Deliver? ==> s'.deliveries == s.deliveries && s'.handouts == s.handouts
  {
    match t
    case Claim(r) =>
      var q := s.requests[r];
      if Claimable(s.entries, q.id, q.key) then At(s.(entries := Claimed(s.entries, q.id)), r, Activating)
      else At(s, r, Refused)
    case BeginMint(r, a, closed) =>
      var id := s.requests[r].id;
      var store := Moved(s.store, id, a, Stage.Minting);
      if a == Yes then At(s.(store := store), r, StartPhase.Minting)
      else At(s.(store := CloseRow(store, id, closed)), r, Releasing)
    case Activate(r, l, a, closed) =>
      var id := s.requests[r].id;
      var store := Moved(s.store, id, a, Active);
      if a == Yes then
        At(s.(store := store, leases := s.leases[l := Lease(id, true, false, false)], active := s.active[id := l]), r, Starting(l))
      else At(s.(store := CloseRow(store, id, closed)), r, Releasing)
    case Start(r, a) =>
      var l := s.requests[r].start.lease;
      At(s.(store := Moved(s.store, s.requests[r].id, a, Running)), r, if a == Yes then Installing(l) else Abandoning(l))
    case Abandon(r, revoked, closed) =>
      var id, l := s.requests[r].id, s.requests[r].start.lease;
      At((if revoked then Drop(s, l) else s).(active := s.active - {id}, store := CloseRow(s.store, id, closed)), r, Releasing)
    case Release(r) => At(s.(entries := Released(s.entries, s.requests[r].id)), r, Refused)
    case Install(r) =>
      var l := s.requests[r].start.lease;
      At(s.(entries := WithLease(s.entries, s.requests[r].id, l)), r, Delivering(l))
    case Deliver(r) =>
      var l := s.requests[r].start.lease;
      if Usable(s.leases[l]) then
        At(s.(leases := s.leases[l := s.leases[l].(delivered := true)], handouts := s.handouts + [l],
              deliveries := s.deliveries + [Delivery(s.requests[r].id, l)]), r, Delivered(l))
      else At(s, r, Undelivered(l))
  }

  function DoClose(s: State, t: Step): (s': State)
    requires CloseStep(t) && AtClose(s, t.r) && CanClose(s, t)
    ensures AtClose(s', t.r) && s'.requests == s.requests[t.r := s.requests[t.r].(close := s'.requests[t.r].close)]
    ensures s'.begun == s.begun && s'.deliveries == s.deliveries && s'.handouts == s.handouts && s'.leases.Keys == s.leases.Keys
    ensures s'.marked == if t.Mark? then s.marked + {s.requests[t.r].id} else s.marked
  {
    match t
    case Match(r) =>
      var q := s.requests[r];
      if !Matches(s.entries, q.id, q.key) then AtPhase(s, r, Failed)
      else if s.entries[q.id].closed then AtPhase(s, r, AlreadyClosed)
      else AtPhase(s, r, Closing(s.entries[q.id].lease))
    case Close(r, ok, closed, revoked) =>
      var id, seen := s.requests[r].id, s.requests[r].close.seen;
      var s1 := if seen.None? then s else (if revoked then Drop(s, seen.value) else s).(active := s.active - {id});
      AtPhase(s1.(store := CloseRow(s.store, id, closed)), r, if ok then Marking(seen) else Failed)
    case Mark(r) =>
      var id := s.requests[r].id;
      AtPhase(s.(entries := Closed(s.entries, id), marked := s.marked + {id}), r, Finished(s.requests[r].close.seen))
  }

  function DoOther(s: State, t: Step): (s': State)
    requires CanOther(s, t)
    ensures s'.requests == if t.Arrive? then s.requests[t.r := t.request] else s.requests
    ensures s'.marked == s.marked && s'.deliveries == s.deliveries && s'.leases.Keys == s.leases.Keys
  {
    match t
    case Begin(id, key, expires) =>
      s.(entries := s.entries[id := Entry(key, None, false, false, expires)], begun := s.begun + {id},
         store := s.store[id := Reserved])
    case Arrive(r, q) => s.(requests := s.requests[r := q])
    case Sweep(id) => s.(entries := s.entries - {id})
    case Lapse(id, to) => s.(store := s.store[id := to])
    case Invalidate(id) =>
      var l := s.active[id];
      s.(leases := s.leases[l := s.leases[l].(invalidated := true)])
    case Revoke(l) => Drop(s, l)
    case Broker(l) => s.(leases := s.leases[l := s.leases[l].(delivered := true)], handouts := s.handouts + [l])
  }

  ghost predicate Next(s: State, s': State) {
    exists t :: Can(s, t) && s' == Do(s, t)
  }

  const EMPTY: State := State(map[], map[], map[], map[], {}, {}, [], [], map[])

  ghost predicate IsRun(run: seq<State>) {
    && run != [] && run[0] == EMPTY
    && (forall i :: 0 <= i < |run| - 1 ==> Next(run[i], run[i + 1]))
  }

  // ----- the invariant -----

  predicate Holds(p: StartPhase) {
    !p.Claiming? && !p.Refused?
  }

  predicate InFlight(p: StartPhase) {
    p.Activating? || p.Minting? || p.Starting? || p.Abandoning? || p.Releasing? || p.Installing?
  }

  /** The request has claimed its reservation and not given it back. */
  predicate Holder(s: State, r: RequestID, id: ID) {
    AtStart(s, r) && s.requests[r].id == id && Holds(s.requests[r].start)
  }

  predicate Owns(s: State, r: RequestID, id: ID, l: LeaseID) {
    AtStart(s, r) && s.requests[r].id == id && s.requests[r].start in {Delivering(l), Delivered(l), Undelivered(l)}
  }

  ghost predicate Owned(s: State, id: ID, l: LeaseID) {
    exists r :: Owns(s, r, id, l)
  }

  ghost predicate OneHolder(s: State) {
    forall r, q, id :: Holder(s, r, id) && Holder(s, q, id) ==> r == q
  }

  ghost predicate HolderOk(s: State, r: RequestID)
    requires r in s.requests
  {
    var q := s.requests[r];
    Holder(s, r, q.id) ==>
      && q.id in s.begun
      && (q.id in s.entries ==> s.entries[q.id].started)
      && (q.id in s.entries && InFlight(q.start) ==> s.entries[q.id].lease.None?)
      && (!q.start.Activating? && !q.start.Minting? && !q.start.Releasing? ==>
          q.start.lease in s.leases && s.leases[q.start.lease].reservation == q.id)
  }

  ghost predicate CloserOk(s: State, r: RequestID)
    requires r in s.requests
  {
    var q := s.requests[r];
    && (q.CloseRequest? && (q.close.Closing? || q.close.Marking? || q.close.Finished?) ==> q.id in s.begun)
    && (q.CloseRequest? && q.close.Finished? ==> q.id in s.marked)
    && (q.CloseRequest? && (q.close.Closing? || q.close.Marking? || q.close.Finished?) && q.close.seen.Some? ==>
        Owned(s, q.id, q.close.seen.value) && q.close.seen.value in s.leases)
    && (q.CloseRequest? && (q.close.Marking? || q.close.Finished?) && q.close.seen.Some? ==>
        !s.leases[q.close.seen.value].live)
  }

  ghost predicate EntryOk(s: State, id: ID)
    requires id in s.entries
  {
    && id in s.begun
    && (s.entries[id].lease.Some? ==> Owned(s, id, s.entries[id].lease.value))
    && (id in s.marked <==> s.entries[id].closed)
    && (s.entries[id].started ==> Held(s, id))
  }

  ghost predicate Held(s: State, id: ID) {
    exists r :: Holder(s, r, id)
  }

  ghost predicate DeliveryOk(s: State, d: Delivery) {
    exists r :: AtStart(s, r) && s.requests[r].id == d.id && s.requests[r].start == Delivered(d.lease)
  }

  ghost predicate Once(ds: seq<Delivery>) {
    forall i, j :: 0 <= i < j < |ds| ==> ds[i].id != ds[j].id
  }

  ghost predicate Inv(s: State) {
    && OneHolder(s)
    && (forall r :: r in s.requests ==> HolderOk(s, r))
    && (forall r :: r in s.requests ==> CloserOk(s, r))
    && (forall id :: id in s.entries ==> EntryOk(s, id))
    && (forall i :: 0 <= i < |s.deliveries| ==> DeliveryOk(s, s.deliveries[i]))
    && Once(s.deliveries) && s.marked <= s.begun
  }

  // ----- every step keeps the invariant -----

  /** Only one request moves, keeping its kind, its reservation and any lease it owns or delivered. */
  ghost predicate Moves(s: State, s': State, r: RequestID) {
    && r in s.requests && r in s'.requests && s'.requests == s.requests[r := s'.requests[r]]
    && s'.requests[r].id == s.requests[r].id
    && (s.requests[r].StartRequest? <==> s'.requests[r].StartRequest?)
    && (s.requests[r].StartRequest? ==> var p, p' := s.requests[r].start, s'.requests[r].start;
        && (p.Delivered? ==> p' == p)
        && (p.Delivering? || p.Undelivered? ==> p' in {Delivering(p.lease), Delivered(p.lease), Undelivered(p.lease)}))
  }

  lemma OwnedMoves(s: State, s': State, r: RequestID)
    requires Moves(s, s', r)
    ensures forall id, l :: Owned(s, id, l) ==> Owned(s', id, l)
    ensures forall d :: DeliveryOk(s, d) ==> DeliveryOk(s', d)
  {
    forall id, l | Owned(s, id, l) ensures Owned(s', id, l) {
      var q :| Owns(s, q, id, l);
      assert Owns(s', q, id, l);
    }
    forall d | DeliveryOk(s, d) ensures DeliveryOk(s', d) {
      var q :| AtStart(s, q) && s.requests[q].id == d.id && s.requests[q].start == Delivered(d.lease);
      assert AtStart(s', q);
    }
  }

  /** A lease's owner is the only holder of its reservation. */
  lemma OwnerIsHolder(s: State, id: ID, l: LeaseID, r: RequestID)
    requires OneHolder(s) && Owned(s, id, l) && Holder(s, r, id)
    ensures Owns(s, r, id, l)
  {
    var q :| Owns(s, q, id, l);
    assert Holder(s, q, id);
  }

  lemma StillOneHolder(s: State, s': State, r: RequestID)
    requires OneHolder(s) && Moves(s, s', r)
    requires Holder(s', r, s'.requests[r].id) ==> Holder(s, r, s.requests[r].id)
    ensures OneHolder(s')
  {
    forall a, b, id | Holder(s', a, id) && Holder(s', b, id) ensures a == b {
      assert Holder(s, a, id) && Holder(s, b, id);
    }
  }

  /** Leases only lose: a lease keeps its reservation, and a dropped token stays dropped. */
  ghost predicate LeasesFade(s: State, s': State) {
    && (forall l :: l in s.leases ==> l in s'.leases && s'.leases[l].reservation == s.leases[l].reservation)
    && (forall l :: l in s.leases && !s.leases[l].live ==> !s'.leases[l].live)
  }

  /** No other request holds this one's reservation. */
  ghost predicate Alone(s: State, r: RequestID)
    requires r in s.requests
  {
    forall q :: Holder(s, q, s.requests[r].id) ==> q == r
  }

  /** What a start request's move leaves to show: itself, and its own entry. */
  lemma StartMoves(s: State, s': State, r: RequestID)
    requires Inv(s) && Moves(s, s', r) && AtStart(s, r) && Alone(s, r) && LeasesFade(s, s')
    requires s'.begun == s.begun && s'.marked == s.marked
    requires forall id :: id in s'.entries ==> id in s.entries
    requires forall id :: id in s'.entries && id != s.requests[r].id ==> s'.entries[id] == s.entries[id]
    requires HolderOk(s', r)
    requires s.requests[r].id in s'.entries ==> EntryOk(s', s.requests[r].id)
    requires s'.deliveries == s.deliveries || (exists d :: s'.deliveries == s.deliveries + [d] && DeliveryOk(s', d))
    requires Once(s'.deliveries)
    ensures Inv(s')
  {
    hide Once;
    OwnedMoves(s, s', r);
    forall q | q in s'.requests && q != r ensures HolderOk(s', q) && CloserOk(s', q) {
      assert HolderOk(s, q) && CloserOk(s, q);
      assert Holder(s', q, s'.requests[q].id) ==> Holder(s, q, s.requests[q].id);
    }
    forall id | id in s'.entries ensures EntryOk(s', id) {
      if id != s.requests[r].id {
        assert EntryOk(s, id);
        if s.entries[id].started {
          HeldStays(s, s', r, id);
        }
      }
    }
    forall a, b, id | Holder(s', a, id) && Holder(s', b, id) ensures a == b {
      assert a != r ==> Holder(s, a, id);
      assert b != r ==> Holder(s, b, id);
    }
  }

  lemma HolderIsAlone(s: State, r: RequestID)
    requires Inv(s) && r in s.requests && Holder(s, r, s.requests[r].id)
    ensures Alone(s, r) && HolderOk(s, r)
    ensures s.requests[r].id in s.entries ==> EntryOk(s, s.requests[r].id)
  {
  }

  lemma LeaseMeansStarted(s: State, id: ID)
    requires Inv(s) && id in s.entries
    ensures s.entries[id].lease.Some? ==> s.entries[id].started
  {
    hide Once, CloserOk;
    assert EntryOk(s, id);
    if s.entries[id].lease.Some? {
      var r :| Owns(s, r, id, s.entries[id].lease.value);
      assert HolderOk(s, r) && Holder(s, r, id);
    }
  }

  lemma ClaimInv(s: State, r: RequestID)
    requires Inv(s) && Can(s, Claim(r))
    ensures Inv(Do(s, Claim(r)))
  {
    hide DoClose, DoOther, CanClose, CanOther, Once, Owned;
    var s', id := Do(s, Claim(r)), s.requests[r].id;
    OwnedMoves(s, s', r);
    if Claimable(s.entries, id, s.requests[r].key) {
      forall q ensures Holder(s, q, id) ==> q == r {
        assert q in s.requests ==> HolderOk(s, q);
      }
      assert EntryOk(s, id);
      LeaseMeansStarted(s, id);
      HeldBy(s', r);
      StartMoves(s, s', r);
    } else {
      RefusedInv(s, s', r);
    }
  }

  /** A request that holds nothing before or after. */
  lemma RefusedInv(s: State, s': State, r: RequestID)
    requires Inv(s) && Can(s, Claim(r)) && s' == At(s, r, Refused)
    ensures Inv(s')
  {
    hide DoClose, DoOther, CanClose, CanOther, Once;
    OwnedMoves(s, s', r);
    StillOneHolder(s, s', r);
    forall q | q in s'.requests ensures HolderOk(s', q) && CloserOk(s', q) {
      assert HolderOk(s, q) && CloserOk(s, q);
      assert q != r && Holder(s', q, s'.requests[q].id) ==> Holder(s, q, s.requests[q].id);
    }
    forall id | Held(s, id) ensures Held(s', id) {
      var q :| Holder(s, q, id);
      assert Holder(s', q, id);
    }
    forall id | id in s'.entries ensures EntryOk(s', id) {
      assert EntryOk(s, id);
    }
  }

  lemma BeginMintInv(s: State, r: RequestID, a: Answer, closed: bool)
    requires Inv(s) && Can(s, BeginMint(r, a, closed))
    ensures Inv(Do(s, BeginMint(r, a, closed)))
  {
    hide DoClose, DoOther, CanClose, CanOther, Once, Owned, Inv, Alone, Released, WithLease, Claimed, Closed, CloseRow, Moved, Allows;
    HolderIsAlone(s, r);
    OwnedMoves(s, Do(s, BeginMint(r, a, closed)), r);
    OnceOf(s);
    HeldBy(Do(s, BeginMint(r, a, closed)), r);
    StartMoves(s, Do(s, BeginMint(r, a, closed)), r);
  }

  lemma ActivateInv(s: State, r: RequestID, l: LeaseID, a: Answer, closed: bool)
    requires Inv(s) && Can(s, Activate(r, l, a, closed))
    ensures Inv(Do(s, Activate(r, l, a, closed)))
  {
    hide DoClose, DoOther, CanClose, CanOther, Once, Owned, Inv, Alone, Released, WithLease, Claimed, Closed, CloseRow, Moved, Allows;
    HolderIsAlone(s, r);
    OwnedMoves(s, Do(s, Activate(r, l, a, closed)), r);
    OnceOf(s);
    HeldBy(Do(s, Activate(r, l, a, closed)), r);
    StartMoves(s, Do(s, Activate(r, l, a, closed)), r);
  }

  lemma StartInv(s: State, r: RequestID, a: Answer)
    requires Inv(s) && Can(s, Start(r, a))
    ensures Inv(Do(s, Start(r, a)))
  {
    hide DoClose, DoOther, CanClose, CanOther, Once, Owned, Inv, Alone, Released, WithLease, Claimed, Closed, CloseRow, Moved, Allows;
    HolderIsAlone(s, r);
    OwnedMoves(s, Do(s, Start(r, a)), r);
    OnceOf(s);
    HeldBy(Do(s, Start(r, a)), r);
    StartMoves(s, Do(s, Start(r, a)), r);
  }

  lemma AbandonInv(s: State, r: RequestID, revoked: bool, closed: bool)
    requires Inv(s) && Can(s, Abandon(r, revoked, closed))
    ensures Inv(Do(s, Abandon(r, revoked, closed)))
  {
    hide DoClose, DoOther, CanClose, CanOther, Once, Owned, Inv, Alone, Released, WithLease, Claimed, Closed, CloseRow, Moved, Allows;
    HolderIsAlone(s, r);
    OwnedMoves(s, Do(s, Abandon(r, revoked, closed)), r);
    OnceOf(s);
    HeldBy(Do(s, Abandon(r, revoked, closed)), r);
    StartMoves(s, Do(s, Abandon(r, revoked, closed)), r);
  }

  lemma HeldBy(s: State, r: RequestID)
    ensures AtStart(s, r) && Holds(s.requests[r].start) ==> Held(s, s.requests[r].id)
  {
    if AtStart(s, r) && Holds(s.requests[r].start) {
      assert Holder(s, r, s.requests[r].id);
    }
  }

  /** Whoever holds another reservation still does. */
  lemma HeldStays(s: State, s': State, r: RequestID, id: ID)
    requires Moves(s, s', r) && Held(s, id) && (s.requests[r].id != id || s.requests[r].CloseRequest?)
    ensures Held(s', id)
  {
    var q :| Holder(s, q, id);
    assert Holder(s', q, id);
  }

  lemma EntryStepInv(s: State, t: Step)
    requires Inv(s) && Can(s, t) && (t.Release? || t.Install?)
    ensures Inv(Do(s, t))
  {
    hide DoClose, DoOther, CanClose, CanOther, Once, Owned, Inv, Alone, Drop;
    var s', r, id := Do(s, t), t.r, s.requests[t.r].id;
    HolderIsAlone(s, r);
    OwnedMoves(s, s', r);
    if t.Install? {
      OwnedBy(s', r, id, s.requests[r].start.lease);
    }
    OnceOf(s);
    HeldBy(s', r);
    StartMoves(s, s', r);
  }

  lemma OnceOf(s: State)
    requires Inv(s)
    ensures Once(s.deliveries)
  {
  }

  lemma OwnedBy(s: State, r: RequestID, id: ID, l: LeaseID)
    requires Owns(s, r, id, l)
    ensures Owned(s, id, l)
  {
  }

  lemma DeliverInv(s: State, r: RequestID)
    requires Inv(s) && Can(s, Deliver(r))
    ensures Inv(Do(s, Deliver(r)))
  {
    hide DoClose, DoOther, CanClose, CanOther, Once, Owned, Inv, Alone, Released, WithLease, Claimed, Closed, CloseRow, Moved, Allows, Claimable, Matches;
    var s', id, l := Do(s, Deliver(r)), s.requests[r].id, s.requests[r].start.lease;
    HolderIsAlone(s, r);
    OwnedMoves(s, s', r);
    OnceOf(s);
    if Usable(s.leases[l]) {
      FirstDelivery(s, r, Delivery(id, l));
      assert AtStart(s', r) && s'.requests[r].start == Delivered(l);
      assert DeliveryOk(s', Delivery(id, l));
    }
    HeldBy(s', r);
    StartMoves(s, s', r);
  }

  /** A request still delivering is the first to deliver for its reservation. */
  lemma FirstDelivery(s: State, r: RequestID, d: Delivery)
    requires Inv(s) && Can(s, Deliver(r)) && d.id == s.requests[r].id
    ensures Once(s.deliveries + [d])
  {
    hide DoClose, DoOther, CanClose, CanOther, Owned, HolderOk, CloserOk;
    forall i | 0 <= i < |s.deliveries| ensures s.deliveries[i].id != d.id {
      assert DeliveryOk(s, s.deliveries[i]);
      var q :| AtStart(s, q) && s.requests[q].id == s.deliveries[i].id && s.requests[q].start == Delivered(s.deliveries[i].lease);
      assert Holder(s, q, s.deliveries[i].id) && Holder(s, r, d.id);
    }
  }

  /** A close request's move leaves to show: itself. */
  lemma CloseMoves(s: State, s': State, r: RequestID)
    requires Inv(s) && Moves(s, s', r) && AtClose(s, r) && LeasesFade(s, s')
    requires s'.begun == s.begun && s.marked <= s'.marked <= s.marked + {s.requests[r].id} && s'.marked <= s'.begun
    requires s'.entries.Keys == s.entries.Keys
    requires forall id :: id in s'.entries ==> s'.entries[id] == s.entries[id].(closed := s'.entries[id].closed)
    requires forall id :: id in s'.entries ==> (s'.entries[id].closed <==> s.entries[id].closed || id in s'.marked - s.marked)
    requires CloserOk(s', r) && s'.deliveries == s.deliveries
    ensures Inv(s')
  {
    hide Once;
    OwnedMoves(s, s', r);
    StillOneHolder(s, s', r);
    forall q | q in s'.requests ensures HolderOk(s', q) && CloserOk(s', q) {
      assert HolderOk(s, q) && CloserOk(s, q);
      assert Holder(s', q, s'.requests[q].id) ==> Holder(s, q, s.requests[q].id);
    }
    forall id | id in s'.entries ensures EntryOk(s', id) {
      assert EntryOk(s, id);
      if s.entries[id].started {
        HeldStays(s, s', r, id);
      }
    }
  }

  lemma FromInv(s: State, r: RequestID)
    requires Inv(s) && r in s.requests
    ensures CloserOk(s, r) && HolderOk(s, r) && s.marked <= s.begun
    ensures s.requests[r].id in s.entries ==> EntryOk(s, s.requests[r].id)
  {
  }

  /** An owned lease exists and belongs to its reservation. */
  lemma OwnedLease(s: State, id: ID, l: LeaseID)
    requires Inv(s) && Owned(s, id, l)
    ensures l in s.leases && s.leases[l].reservation == id
  {
    hide Once, EntryOk, CloserOk;
    var r :| Owns(s, r, id, l);
    assert HolderOk(s, r);
  }

  lemma MatchInv(s: State, r: RequestID)
    requires Inv(s) && Can(s, Match(r))
    ensures Inv(Do(s, Match(r)))
  {
    hide DoStart, DoOther, CanStart, CanOther, Once, Owned, Inv, HolderOk;
    var s', id := Do(s, Match(r)), s.requests[r].id;
    FromInv(s, r);
    OwnedMoves(s, s', r);
    if Matches(s.entries, id, s.requests[r].key) && s.entries[id].lease.Some? {
      OwnedLease(s, id, s.entries[id].lease.value);
    }
    CloseMoves(s, s', r);
  }

  lemma CloseInv(s: State, r: RequestID, ok: bool, closed: bool, revoked: bool)
    requires Inv(s) && Can(s, Close(r, ok, closed, revoked))
    ensures Inv(Do(s, Close(r, ok, closed, revoked)))
  {
    hide DoStart, DoOther, CanStart, CanOther, Once, Owned, Inv, HolderOk, EntryOk, CloseRow, Open;
    var s' := Do(s, Close(r, ok, closed, revoked));
    FromInv(s, r);
    OwnedMoves(s, s', r);
    CloseMoves(s, s', r);
  }

  lemma MarkInv(s: State, r: RequestID)
    requires Inv(s) && Can(s, Mark(r))
    ensures Inv(Do(s, Mark(r)))
  {
    hide DoStart, DoOther, CanStart, CanOther, Once, Owned, Inv, HolderOk, EntryOk;
    var s' := Do(s, Mark(r));
    FromInv(s, r);
    OwnedMoves(s, s', r);
    CloseMoves(s, s', r);
  }

  /** Steps of no request: a new reservation, a sweep, an invalidation, a revocation. */
  lemma QuietInv(s: State, s': State)
    requires Inv(s) && s'.requests == s.requests && LeasesFade(s, s') && s.begun <= s'.begun
    requires s'.marked == s.marked && s'.deliveries == s.deliveries
    requires forall id :: id in s'.entries && id in s.begun ==> id in s.entries && s'.entries[id] == s.entries[id]
    requires forall id :: id in s'.entries && id !in s.begun ==> id in s'.begun && s'.entries[id].lease.None? && !s'.entries[id].closed
    requires forall id :: id in s'.entries && id !in s.begun ==> !s'.entries[id].started
    ensures Inv(s')
  {
    hide Once;
    forall id, l | Owned(s, id, l) ensures Owned(s', id, l) {
      var q :| Owns(s, q, id, l);
      assert Owns(s', q, id, l);
    }
    forall id | Held(s, id) ensures Held(s', id) {
      var q :| Holder(s, q, id);
      assert Holder(s', q, id);
    }
    forall q | q in s'.requests ensures HolderOk(s', q) && CloserOk(s', q) {
      assert HolderOk(s, q) && CloserOk(s, q);
      assert Holder(s', q, s'.requests[q].id) ==> Holder(s, q, s.requests[q].id);
    }
    forall id | id in s'.entries ensures EntryOk(s', id) {
      if id in s.begun {
        assert EntryOk(s, id);
      }
    }
    forall i | 0 <= i < |s'.deliveries| ensures DeliveryOk(s', s'.deliveries[i]) {
      assert DeliveryOk(s, s.deliveries[i]);
    }
    forall a, b, id | Holder(s', a, id) && Holder(s', b, id) ensures a == b {
      assert Holder(s, a, id) && Holder(s, b, id);
    }
  }

  lemma ArriveInv(s: State, r: RequestID, q: Request)
    requires Inv(s) && Can(s, Arrive(r, q))
    ensures Inv(Do(s, Arrive(r, q)))
  {
    hide DoStart, DoClose, CanStart, CanClose, Once;
    var s' := Do(s, Arrive(r, q));
    forall id, l | Owned(s, id, l) ensures Owned(s', id, l) {
      var o :| Owns(s, o, id, l);
      assert Owns(s', o, id, l);
    }
    forall id | Held(s, id) ensures Held(s', id) {
      var o :| Holder(s, o, id);
      assert Holder(s', o, id);
    }
    forall o | o in s'.requests ensures HolderOk(s', o) && CloserOk(s', o) {
      if o != r {
        assert HolderOk(s, o) && CloserOk(s, o);
        assert Holder(s', o, s'.requests[o].id) ==> Holder(s, o, s.requests[o].id);
      }
    }
    forall id | id in s'.entries ensures EntryOk(s', id) {
      assert EntryOk(s, id);
    }
    forall i | 0 <= i < |s'.deliveries| ensures DeliveryOk(s', s'.deliveries[i]) {
      assert DeliveryOk(s, s.deliveries[i]);
      var o :| AtStart(s, o) && s.requests[o].id == s.deliveries[i].id && s.requests[o].start == Delivered(s.deliveries[i].lease);
      assert AtStart(s', o);
    }
    forall a, b, id | Holder(s', a, id) && Holder(s', b, id) ensures a == b {
      assert Holder(s, a, id) && Holder(s, b, id);
    }
  }

  lemma EntriesBegun(s: State)
    requires Inv(s)
    ensures s.entries.Keys <= s.begun
  {
    forall id | id in s.entries ensures id in s.begun {
      assert EntryOk(s, id);
    }
  }

  /** The steps of no request. */
  lemma QuietStepInv(s: State, t: Step)
    requires Inv(s) && Can(s, t) && !StartStep(t) && !CloseStep(t) && !t.Arrive?
    ensures Inv(Do(s, t))
  {
    hide Inv, DoStart, DoClose, CanStart, CanClose;
    EntriesBegun(s);
    QuietInv(s, Do(s, t));
  }

  lemma StepInv(s: State, t: Step)
    requires Inv(s) && Can(s, t)
    ensures Inv(Do(s, t))
  {
    hide Inv, Can, Do;
    match t {
      case Claim(r) => ClaimInv(s, r);
      case BeginMint(r, a, closed) => BeginMintInv(s, r, a, closed);
      case Activate(r, l, a, closed) => ActivateInv(s, r, l, a, closed);
      case Start(r, a) => StartInv(s, r, a);
      case Abandon(r, revoked, closed) => AbandonInv(s, r, revoked, closed);
      case Release(_) => EntryStepInv(s, t);
      case Install(_) => EntryStepInv(s, t);
      case Deliver(r) => DeliverInv(s, r);
      case Match(r) => MatchInv(s, r);
      case Close(r, ok, closed, revoked) => CloseInv(s, r, ok, closed, revoked);
      case Mark(r) => MarkInv(s, r);
      case Arrive(r, q) => ArriveInv(s, r, q);
      case _ => QuietStepInv(s, t);
    }
  }

  // ----- whole runs -----

  lemma {:induction false} RunInv(run: seq<State>, i: nat)
    requires IsRun(run) && i < |run|
    ensures Inv(run[i])
  {
    hide Can, Do;
    if i > 0 {
      hide Inv;
      RunInv(run, i - 1);
      assert Next(run[i - 1], run[i - 1 + 1]);
      var t :| Can(run[i - 1], t) && run[i] == Do(run[i - 1], t);
      StepInv(run[i - 1], t);
    }
  }

  /** In-flight activations and the installed lease of one reservation never exceed one. */
  lemma OneActivation(run: seq<State>, i: nat, id: ID, r: RequestID, q: RequestID)
    requires IsRun(run) && i < |run|
    requires Holder(run[i], r, id) && InFlight(run[i].requests[r].start)
    ensures Holder(run[i], q, id) ==> q == r
    ensures id in run[i].entries ==> run[i].entries[id].lease.None?
  {
    hide Once, CloserOk, EntryOk, Next;
    RunInv(run, i);
    assert HolderOk(run[i], r);
  }

  /** At most one token is ever delivered per reservation. */
  lemma OneToken(run: seq<State>, i: nat, a: nat, b: nat)
    requires IsRun(run) && i < |run| && a < b < |run[i].deliveries|
    ensures run[i].deliveries[a].id != run[i].deliveries[b].id
  {
    hide OneHolder, HolderOk, CloserOk, EntryOk, DeliveryOk, Next;
    RunInv(run, i);
  }

  /** A failed activation frees the claim: the reservation is as startable as before. */
  lemma FailureFreesClaim(run: seq<State>, i: nat, r: RequestID)
    requires IsRun(run) && i < |run| && Can(run[i], Release(r))
    ensures var s', q := Do(run[i], Release(r)), run[i].requests[r];
      && (forall o :: !Holder(s', o, q.id))
      && (q.id in run[i].entries ==> q.id in s'.entries && s'.entries[q.id].lease.None?)
      && (q.id in s'.entries ==> (Claimable(s'.entries, q.id, s'.entries[q.id].key) <==> !s'.entries[q.id].closed))
  {
    hide Once, CloserOk, Next, DeliveryOk;
    RunInv(run, i);
    var s, id := run[i], run[i].requests[r].id;
    assert HolderOk(s, r) && Holder(s, r, id);
    var s' := Do(s, Release(r));
    forall o ensures !Holder(s', o, id) {
      assert o != r && Holder(s', o, id) ==> Holder(s, o, id);
    }
  }

  /** No start is claimed once the reservation was marked closed, swept or not. */
  lemma NoClaimAfterClose(run: seq<State>, i: nat, r: RequestID)
    requires IsRun(run) && i < |run| && Can(run[i], Claim(r)) && run[i].requests[r].id in run[i].marked
    ensures Do(run[i], Claim(r)) == At(run[i], r, Refused)
  {
    hide Once, CloserOk, HolderOk, OneHolder, DeliveryOk, Next;
    RunInv(run, i);
    var id := run[i].requests[r].id;
    assert id in run[i].entries ==> EntryOk(run[i], id);
  }

  /** A close that saw the lease has revoked the only token its reservation ever delivers. */
  lemma CloseRevokes(run: seq<State>, i: nat, r: RequestID, k: nat)
    requires IsRun(run) && i < |run| && AtClose(run[i], r) && k < |run[i].deliveries|
    requires run[i].requests[r].close.Finished? && run[i].requests[r].close.seen.Some?
    requires run[i].deliveries[k].id == run[i].requests[r].id
    ensures var l := run[i].deliveries[k].lease;
      l == run[i].requests[r].close.seen.value && l in run[i].leases && !run[i].leases[l].live
  {
    hide Once, EntryOk, HolderOk, Next;
    RunInv(run, i);
    var s, d := run[i], run[i].deliveries[k];
    assert CloserOk(s, r) && DeliveryOk(s, d);
    var q :| AtStart(s, q) && s.requests[q].id == d.id && s.requests[q].start == Delivered(d.lease);
    assert Holder(s, q, d.id);
    OwnerIsHolder(s, d.id, s.requests[r].close.seen.value, q);
  }

  /** Leases get no better: what is dead, handed out or unusable stays so. */
  ghost predicate NoBetter(s: State, s': State) {
    && (forall l :: l in s.leases ==> l in s'.leases)
    && (forall l :: l in s.leases ==> NoBetterLease(s.leases[l], s'.leases[l]))
  }

  predicate NoBetterLease(l: Lease, l': Lease) {
    (!l.live ==> !l'.live) && (l.delivered ==> l'.delivered) && (l.invalidated ==> l'.invalidated)
  }

  lemma StepNoBetter(s: State, t: Step)
    requires Can(s, t)
    ensures NoBetter(s, Do(s, t)) && s.marked <= Do(s, t).marked
  {
    if StartStep(t) {
      hide Can, Do;
      StartNoBetter(s, t);
    } else {
      hide DoStart, CanStart, Closed, Usable, CloseRow, Open, Matches;
    }
  }

  lemma StartNoBetter(s: State, t: Step)
    requires Can(s, t) && StartStep(t)
    ensures NoBetter(s, Do(s, t)) && s.marked <= Do(s, t).marked
  {
    if t.Activate? || t.Deliver? || t.Abandon? {
      hide DoClose, DoOther, CanClose, CanOther, Released, WithLease, Claimed, Usable, CloseRow, Moved, Allows, Claimable;
    } else {
      hide CanStart, DoStart;
    }
  }

  // ----- one use per lease -----

  ghost predicate HandedOnce(s: State) {
    && (forall i :: 0 <= i < |s.handouts| ==> s.handouts[i] in s.leases && s.leases[s.handouts[i]].delivered)
    && (forall i, j :: 0 <= i < j < |s.handouts| ==> s.handouts[i] != s.handouts[j])
  }

  /** A token is handed out only by a lease that has not done so. */
  lemma StepHandout(s: State, t: Step)
    requires Can(s, t)
    ensures var s' := Do(s, t);
      s'.handouts == s.handouts || exists l :: s'.handouts == s.handouts + [l] && Unused(s, s', l)
  {
    hide Released, WithLease, Claimed, Closed, Claimable, Matches, DoClose, CanClose, CloseRow, Moved, Allows, Open;
    var s' := Do(s, t);
    if t.Deliver? && Usable(s.leases[s.requests[t.r].start.lease]) {
      assert Unused(s, s', s.requests[t.r].start.lease);
    } else if t.Broker? {
      assert Unused(s, s', t.l);
    }
  }

  predicate Unused(s: State, s': State, l: LeaseID) {
    l in s.leases && !s.leases[l].delivered && l in s'.leases && s'.leases[l].delivered
  }

  lemma StepHandedOnce(s: State, t: Step)
    requires HandedOnce(s) && Can(s, t)
    ensures HandedOnce(Do(s, t))
  {
    hide Can, Do;
    StepNoBetter(s, t);
    StepHandout(s, t);
  }

  /** Whether to an agent or to a local process, a lease's token is handed out once at most. */
  lemma {:induction false} OneUsePerLease(run: seq<State>, i: nat)
    requires IsRun(run) && i < |run|
    ensures HandedOnce(run[i])
  {
    hide Can, Do;
    if i > 0 {
      hide HandedOnce;
      OneUsePerLease(run, i - 1);
      assert Next(run[i - 1], run[i - 1 + 1]);
      var t :| Can(run[i - 1], t) && run[i] == Do(run[i - 1], t);
      StepHandedOnce(run[i - 1], t);
    }
  }

  lemma RunGrows(run: seq<State>, t: Step)
    requires IsRun(run) && Can(run[|run| - 1], t)
    ensures IsRun(run + [Do(run[|run| - 1], t)])
  {
    hide Can, Do;
    var longer := run + [Do(run[|run| - 1], t)];
    forall i | 0 <= i < |longer| - 1 ensures Next(longer[i], longer[i + 1]) {
      if i < |run| - 1 {
        assert Next(run[i], run[i + 1]);
      }
    }
  }

  // ----- the store's rows -----

  function Rank(stage: Stage): nat {
    match stage
    case Reserved => 0
    case Minting => 1
    case Active => 2
    case Running => 3
    case _ => 4
  }

  /** Rows only move forward. */
  ghost predicate Forward(rows: Rows, rows': Rows) {
    forall id :: id in rows ==> id in rows' && (rows'[id] == rows[id] || Rank(rows[id]) < Rank(rows'[id]))
  }

  lemma MoveForward(rows: Rows, id: ID, a: Answer, from: Stage, to: Stage)
    requires Allows(rows, id, a, from) && Rank(from) < Rank(to)
    ensures Forward(rows, Moved(rows, id, a, to)) && Moved(rows, id, a, to).Keys == rows.Keys
  {
  }

  lemma CloseForward(rows: Rows, id: ID, done: bool)
    ensures Forward(rows, CloseRow(rows, id, done)) && CloseRow(rows, id, done).Keys == rows.Keys
  {
  }

  lemma ForwardForward(a: Rows, b: Rows, c: Rows)
    requires Forward(a, b) && Forward(b, c)
    ensures Forward(a, c)
  {
  }

  /** What the steps of each kind do to the rows, the marks and the reservations begun. */
  lemma StartRows(s: State, t: Step)
    requires Can(s, t) && StartStep(t)
    ensures var s' := Do(s, t); Forward(s.store, s'.store) && s'.store.Keys == s.store.Keys && s'.begun == s.begun && s'.marked == s.marked
  {
    hide DoClose, DoOther, CanClose, CanOther, Released, WithLease, Claimed, Closed, Usable, Claimable, Matches, Forward, CloseRow, Moved, Allows, Open;
    var id := s.requests[t.r].id;
    SameForward(s.store);
    match t {
      case BeginMint(_, a, closed) =>
        MoveForward(s.store, id, a, Reserved, Stage.Minting);
        CloseForward(Moved(s.store, id, a, Stage.Minting), id, closed);
        ForwardForward(s.store, Moved(s.store, id, a, Stage.Minting), CloseRow(Moved(s.store, id, a, Stage.Minting), id, closed));
      case Activate(_, _, a, closed) =>
        MoveForward(s.store, id, a, Stage.Minting, Active);
        CloseForward(Moved(s.store, id, a, Active), id, closed);
        ForwardForward(s.store, Moved(s.store, id, a, Active), CloseRow(Moved(s.store, id, a, Active), id, closed));
      case Start(_, a) => MoveForward(s.store, id, a, Active, Running);
      case Abandon(_, _, closed) => CloseForward(s.store, id, closed);
      case _ =>
    }
  }

  lemma SameForward(rows: Rows)
    ensures Forward(rows, rows)
  {
  }

  lemma CloseRows(s: State, t: Step)
    requires Can(s, t) && CloseStep(t)
    ensures var s' := Do(s, t); Forward(s.store, s'.store) && s'.store.Keys == s.store.Keys && s'.begun == s.begun
    ensures Do(s, t).marked == if t.Mark? then s.marked + {s.requests[t.r].id} else s.marked
  {
    hide DoStart, DoOther, CanStart, CanOther, Released, WithLease, Claimed, Closed, Usable, Claimable, Matches, Forward, CloseRow, Moved, Allows, Open;
    SameForward(s.store);
    if t.Close? {
      CloseForward(s.store, s.requests[t.r].id, t.closed);
    }
  }

  lemma OtherRows(s: State, t: Step)
    requires Can(s, t) && !StartStep(t) && !CloseStep(t) && s.begun == s.store.Keys
    ensures var s' := Do(s, t); Forward(s.store, s'.store) && s'.store.Keys == s'.begun && s'.marked == s.marked
  {
    hide Usable, DoStart, DoClose, CanStart, CanClose;
  }

  lemma StepForward(s: State, t: Step)
    requires Can(s, t) && s.begun == s.store.Keys
    ensures Forward(s.store, Do(s, t).store) && Do(s, t).begun == Do(s, t).store.Keys
  {
    hide Can, Do, Forward;
    if StartStep(t) {
      StartRows(s, t);
    } else if CloseStep(t) {
      CloseRows(s, t);
    } else {
      OtherRows(s, t);
    }
  }

  /** A start the store has let through its first gate. */
  predicate PastReserved(p: StartPhase) {
    Holds(p) && !p.Activating? && !p.Releasing?
  }

  ghost predicate RequestRow(s: State, q: Request) {
    && (q.StartRequest? && Holds(q.start) ==> q.id in s.store)
    && (q.StartRequest? && PastReserved(q.start) ==> q.id in s.store && s.store[q.id] != Reserved)
    && (q.CloseRequest? && (q.close.Marking? || q.close.Finished?) ==> q.id in s.store && s.store[q.id] == Consumed)
  }

  ghost predicate LeaseRow(s: State, l: LeaseID)
    requires l in s.leases
  {
    var id := s.leases[l].reservation;
    id in s.store && s.store[id] != Reserved && s.store[id] != Stage.Minting
  }

  /** What the rows say about requests, closes and leases: a marked reservation is consumed, and a
      lease means that minting is over. */
  ghost predicate StoreOk(s: State) {
    && s.begun == s.store.Keys
    && (forall r :: r in s.requests ==> RequestRow(s, s.requests[r]))
    && (forall id :: id in s.marked ==> id in s.store && s.store[id] == Consumed)
    && (forall l :: l in s.leases ==> LeaseRow(s, l))
    && (forall l, k :: l in s.leases && k in s.leases && s.leases[l].reservation == s.leases[k].reservation ==> l == k)
  }

  lemma RequestRowStays(s: State, s': State, q: Request)
    requires RequestRow(s, q) && Forward(s.store, s'.store)
    ensures RequestRow(s', q)
  {
  }

  /** The request a step moves, as the store after the step has it. */
  lemma StartRow(s: State, t: Step)
    requires StoreOk(s) && Inv(s) && Can(s, t) && StartStep(t)
    ensures t.r in Do(s, t).requests && RequestRow(Do(s, t), Do(s, t).requests[t.r])
  {
    hide DoClose, DoOther, CanClose, CanOther, Inv, LeaseRow, Released, WithLease, Claimed, Closed, Usable, Matches, Forward;
    hide StoreOk, Moved, CloseRow, Allows;
    RowOf(s, t.r);
    StartRows(s, t);
    if t.Claim? {
      EntriesBegun(s);
      ClaimedIsBegun(s, t.r);
    } else if t.BeginMint? {
      RowMoved(s.store, s.requests[t.r].id, t.a, Stage.Minting);
    } else {
      RowForward(s.store, Do(s, t).store, s.requests[t.r].id);
    }
  }

  lemma RowOf(s: State, r: RequestID)
    requires StoreOk(s) && r in s.requests
    ensures RequestRow(s, s.requests[r]) && s.begun == s.store.Keys
  {
    hide RequestRow, LeaseRow;
  }

  lemma RowMoved(rows: Rows, id: ID, a: Answer, to: Stage)
    ensures a == Yes ==> id in Moved(rows, id, a, to) && Moved(rows, id, a, to)[id] == to
  {
  }

  lemma RowForward(rows: Rows, rows': Rows, id: ID)
    requires Forward(rows, rows')
    ensures id in rows && rows[id] != Reserved ==> id in rows' && rows'[id] != Reserved
  {
  }

  lemma ClaimedIsBegun(s: State, r: RequestID)
    requires r in s.requests && s.entries.Keys <= s.begun
    ensures Claimable(s.entries, s.requests[r].id, s.requests[r].key) ==> s.requests[r].id in s.begun
  {
  }

  lemma ClosersRow(s: State, t: Step)
    requires StoreOk(s) && Can(s, t) && CloseStep(t)
    ensures t.r in Do(s, t).requests && RequestRow(Do(s, t), Do(s, t).requests[t.r])
  {
    hide DoStart, DoOther, CanStart, CanOther, LeaseRow, Closed, Usable, Matches, Forward;
    assert RequestRow(s, s.requests[t.r]);
  }

  lemma MovedRow(s: State, t: Step, r: RequestID)
    requires Inv(s) && StoreOk(s) && Can(s, t) && r in Do(s, t).requests
    requires r !in s.requests || Do(s, t).requests[r] != s.requests[r]
    ensures RequestRow(Do(s, t), Do(s, t).requests[r])
  {
    hide Inv, LeaseRow, StoreOk, CanStart, CanClose, DoStart, DoClose, DoOther;
    WhoMoves(s, t, r);
    if StartStep(t) {
      StartRow(s, t);
    } else if CloseStep(t) {
      ClosersRow(s, t);
    }
  }

  /** A start or close step moves its own request and no other. */
  lemma WhoMoves(s: State, t: Step, r: RequestID)
    requires Can(s, t) && r in Do(s, t).requests && (r !in s.requests || Do(s, t).requests[r] != s.requests[r])
    ensures StartStep(t) || CloseStep(t) || t.Arrive?
    ensures t.r == r
  {
    hide CanStart, CanClose, CanOther, DoStart, DoClose, DoOther;
  }

  /** Which leases there are after a step: the old ones with their reservations, and a new one only
      from an activation. */
  lemma LeasesAfter(s: State, t: Step)
    requires Can(s, t)
    ensures var s' := Do(s, t);
      && (forall l :: l in s.leases ==> l in s'.leases && s'.leases[l].reservation == s.leases[l].reservation)
      && (forall l :: l in s'.leases && l !in s.leases ==>
           t.Activate? && t.a == Yes && l == t.l && s'.leases[l].reservation == s.requests[t.r].id)
  {
    if StartStep(t) {
      hide Can, Do;
      StartLeases(s, t);
    } else {
      hide DoStart, CanStart, Released, WithLease, Claimed, Closed, Usable, CloseRow, Open, Claimable, Matches;
    }
  }

  lemma StartLeases(s: State, t: Step)
    requires Can(s, t) && StartStep(t)
    ensures var s' := Do(s, t);
      && (forall l :: l in s.leases ==> l in s'.leases && s'.leases[l].reservation == s.leases[l].reservation)
      && (forall l :: l in s'.leases && l !in s.leases ==>
           t.Activate? && t.a == Yes && l == t.l && s'.leases[l].reservation == s.requests[t.r].id)
  {
    if t.Activate? || t.Deliver? || t.Abandon? {
      hide DoClose, DoOther, CanClose, CanOther, Released, WithLease, Claimed, Usable, CloseRow, Moved, Allows, Claimable;
    } else {
      hide CanStart, DoStart;
    }
  }

  lemma NewLeaseRow(s: State, t: Step)
    requires StoreOk(s) && Can(s, t) && t.Activate? && t.a == Yes
    ensures var id := s.requests[t.r].id;
      && (forall l :: l in s.leases ==> s.leases[l].reservation != id)
      && id in Do(s, t).store && Do(s, t).store[id] == Active
  {
    hide DoClose, DoOther, CanClose, CanOther, RequestRow;
    forall l | l in s.leases ensures s.leases[l].reservation != s.requests[t.r].id {
      assert LeaseRow(s, l);
    }
  }

  lemma LeasesAndRows(s: State, t: Step)
    requires StoreOk(s) && Can(s, t)
    ensures var s' := Do(s, t);
      && (forall l :: l in s'.leases ==> LeaseRow(s', l))
      && (forall l, k :: l in s'.leases && k in s'.leases && s'.leases[l].reservation == s'.leases[k].reservation ==> l == k)
  {
    hide Can, Do, RequestRow;
    StepForward(s, t);
    LeasesAfter(s, t);
    if t.Activate? && t.a == Yes {
      NewLeaseRow(s, t);
    }
    var s' := Do(s, t);
    forall l | l in s'.leases ensures LeaseRow(s', l) {
      assert l in s.leases ==> LeaseRow(s, l);
    }
  }

  lemma MarkedRows(s: State, t: Step)
    requires StoreOk(s) && Can(s, t)
    ensures var s' := Do(s, t); s'.begun == s'.store.Keys && forall id :: id in s'.marked ==> id in s'.store && s'.store[id] == Consumed
  {
    hide Do, CanStart, CanOther, LeaseRow;
    StepForward(s, t);
    if StartStep(t) {
      StartRows(s, t);
    } else if CloseStep(t) {
      CloseRows(s, t);
      assert RequestRow(s, s.requests[t.r]);
    } else {
      OtherRows(s, t);
    }
  }

  lemma StepStore(s: State, t: Step)
    requires Inv(s) && StoreOk(s) && Can(s, t)
    ensures StoreOk(Do(s, t))
  {
    hide Inv, Can, Do, RequestRow, LeaseRow, Forward;
    StepForward(s, t);
    MarkedRows(s, t);
    LeasesAndRows(s, t);
    var s' := Do(s, t);
    forall r | r in s'.requests ensures RequestRow(s', s'.requests[r]) {
      if r in s.requests && s'.requests[r] == s.requests[r] {
        RequestRowStays(s, s', s.requests[r]);
      } else {
        MovedRow(s, t, r);
      }
    }
  }

  lemma {:induction false} RunStore(run: seq<State>, i: nat)
    requires IsRun(run) && i < |run|
    ensures StoreOk(run[i])
  {
    hide Can, Do, Inv;
    if i > 0 {
      hide StoreOk;
      RunStore(run, i - 1);
      RunInv(run, i - 1);
      assert Next(run[i - 1], run[i - 1 + 1]);
      var t :| Can(run[i - 1], t) && run[i] == Do(run[i - 1], t);
      StepStore(run[i - 1], t);
    }
  }

  /** The store lets each reservation be activated once: it never has two leases, however often its
      start was claimed. */
  lemma OneLease(run: seq<State>, i: nat, l: LeaseID, k: LeaseID)
    requires IsRun(run) && i < |run| && l in run[i].leases && k in run[i].leases
    requires run[i].leases[l].reservation == run[i].leases[k].reservation
    ensures l == k
  {
    hide Next, RequestRow, LeaseRow;
    RunStore(run, i);
  }
}
