/** The start and close handlers, step by step, amid whatever every other request, sweep and
    invalidation does between any two of their steps. */
module CheckoutServer {
  import opened Wrappers
  import opened Checkout
  import opened CheckoutProtocol
  import opened CheckoutClose

  /** The steps a request takes itself. */
  predicate Own(t: Step, r: RequestID) {
    match t
    case Begin(_, _, _) => false
    case Sweep(_) => false
    case Lapse(_, _) => false
    case Invalidate(_) => false
    case Revoke(_) => false
    case Broker(_) => false
    case _ => t.r == r
  }

  /** A close goes through unless the row has been invalidated or has expired; it may come twice. */
  predicate CanConsume(rows: Rows, id: ID) {
    id in rows && rows[id] != Invalidated && rows[id] != Expired
  }

  /** What others do at the i-th gap. */
  function Gap(gaps: seq<seq<Step>>, i: nat): seq<Step> {
    if i < |gaps| then gaps[i] else []
  }

  lemma OtherStep(s: State, t: Step, r: RequestID)
    requires Can(s, t) && !Own(t, r) && r in s.requests
    ensures r in Do(s, t).requests && Do(s, t).requests[r] == s.requests[r]
  {
    hide CanStart, CanClose, DoStart, DoClose, DoOther;
  }

  /** The answers a start meets on its way. */
  datatype Answers = Answers(begun: Answer, minted: Minted, activated: Answer, started: Answer, revoked: bool, closed: bool)

  class Server {
    var s: State
    const provider: Provider
    ghost var run: seq<State>

    constructor (provider: Provider)
      ensures Valid() && this.provider == provider && s == EMPTY
    {
      this.provider := provider;
      s := EMPTY;
      run := [EMPTY];
    }

    ghost predicate Valid()
      reads this
    {
      IsRun(run) && run[|run| - 1] == s
    }

    method Take(t: Step)
      requires Valid() && Can(s, t)
      modifies this
      ensures Valid() && s == Do(old(s), t) && run == old(run) + [s] && old(s).marked <= s.marked
    {
      hide Can, Do, NoBetter;
      RunGrows(run, t);
      StepNoBetter(s, t);
      s := Do(s, t);
      run := run + [s];
    }

    /** Everybody else's turn. */
    method Others(r: RequestID, script: seq<Step>)
      requires Valid() && r in s.requests
      modifies this
      ensures Valid() && old(run) <= run && old(s).marked <= s.marked
      ensures r in s.requests && s.requests[r] == old(s).requests[r]
      ensures script == [] ==> s == old(s)
    {
      hide IsRun, Can, Do, Own;
      var i := 0;
      while i < |script|
        invariant Valid() && old(run) <= run && old(s).marked <= s.marked
        invariant r in s.requests && s.requests[r] == old(s).requests[r]
        invariant i == 0 ==> s == old(s)
        invariant 0 <= i <= |script|
        decreases |script| - i
      {
        if Can(s, script[i]) && !Own(script[i], r) {
          OtherStep(s, script[i], r);
          Take(script[i]);
        }
        i := i + 1;
      }
    }

    /** Removes what has expired. */
    method Sweep(now: int)
      requires Valid()
      modifies this
      ensures Valid() && old(run) <= run
      ensures s == old(s).(entries := Swept(old(s).entries, now))
      ensures forall id :: id in s.entries <==> id in old(s).entries && now < old(s).entries[id].expires
      ensures forall id :: id in s.entries ==> s.entries[id] == old(s).entries[id]
    {
      hide IsRun;
      ghost var all := s.entries;
      var todo := s.entries.Keys;
      while todo != {}
        invariant Valid() && old(run) <= run && todo <= all.Keys && s == old(s).(entries := s.entries)
        invariant forall id :: id in s.entries <==> id in all && (id in todo || all[id].expires > now)
        invariant forall id :: id in s.entries ==> s.entries[id] == all[id]
        decreases |todo|
      {
        var id :| id in todo;
        todo := todo - {id};
        if !(s.entries[id].expires > now) {
          Take(Step.Sweep(id));
        }
      }
      assert s.entries == Swept(all, now);
    }

    method Arrived(r: RequestID, q: Request)
      requires Valid() && r !in s.requests && (if q.StartRequest? then q.start.Claiming? else q.close.Matching?)
      modifies this
      ensures Valid() && old(run) <= run && s == old(s).(requests := old(s).requests[r := q])
    {
      hide IsRun;
      Take(Arrive(r, q));
    }

    /** Records a freshly begun reservation, which only its server, attempt and fence can start. */
    method HandleBegin(id: ID, key: Key, now: int)
      requires Valid() && id !in s.begun
      modifies this
      ensures Valid() && old(run) <= run
      ensures s.entries == Swept(old(s).entries, now)[id := Entry(key, None, false, false, now + TTL)]
      ensures forall k :: Claimable(s.entries, id, k) <==> k == key
      ensures id in s.store && s.store[id] == Reserved && forall q :: !Holder(s, q, id)
      ensures s.requests == old(s).requests && s.leases == old(s).leases && s.deliveries == old(s).deliveries
    {
      hide IsRun;
      Sweep(now);
      Unheld(id);
      ghost var before := s;
      Take(Begin(id, key, now + TTL));
      forall q ensures !Holder(s, q, id) {
        assert !Holder(before, q, id);
      }
    }

    lemma Unheld(id: ID)
      requires Valid() && id !in s.begun
      ensures forall q :: !Holder(s, q, id)
    {
      hide Next, CloserOk, EntryOk, DeliveryOk, Once, OneHolder;
      RunInv(run, |run| - 1);
      forall q | q in s.requests ensures !Holder(s, q, id) {
        assert HolderOk(s, q);
      }
    }

    /** A durable disable: the row goes first, then the lease of this process. No start of the
        reservation that has not delivered yet ever will. */
    method Disable(id: ID)
      requires Valid()
      modifies this
      ensures Valid() && old(run) <= run && s.requests == old(s).requests && s.deliveries == old(s).deliveries
      ensures id in s.store ==> id in old(s).store && !Open(s.store[id])
      ensures id in s.store ==> forall p: StartPhase :: (p.Activating? || p.Minting? || p.Starting?) ==> Lost(s, id, p)
      ensures id in s.store && id in old(s).active && old(s).active[id] in old(s).leases ==> var l := old(s).active[id];
        Lost(s, id, Installing(l)) && Lost(s, id, Delivering(l))
    {
      hide IsRun;
      if id in s.store && Open(s.store[id]) {
        Take(Lapse(id, Invalidated));
      }
      if id in s.active && s.active[id] in s.leases {
        Take(Step.Invalidate(id));
      }
    }

    // ----- start -----

    /** Claims the one start of the reservation, or is refused like a stranger. */
    method ClaimStart(r: RequestID, now: int) returns (claimed: bool)
      requires Valid() && AtStart(s, r) && s.requests[r].start.Claiming?
      modifies this
      ensures Valid() && old(run) <= run && AtStart(s, r) && old(s).marked <= s.marked
      ensures claimed <==> Claimable(Swept(old(s).entries, now), old(s).requests[r].id, old(s).requests[r].key)
      ensures s.requests[r] == old(s).requests[r].(start := if claimed then Activating else Refused)
      ensures !claimed ==> s.entries == Swept(old(s).entries, now)
      ensures claimed ==> old(s).requests[r].id !in old(s).marked && forall q :: Holder(s, q, s.requests[r].id) ==> q == r
      ensures s.deliveries == old(s).deliveries && s.store == old(s).store && s.leases == old(s).leases
    {
      hide IsRun;
      Sweep(now);
      claimed := Claimable(s.entries, s.requests[r].id, s.requests[r].key);
      NotMarked(s.requests[r].id);
      Take(Claim(r));
      if claimed {
        OnlyHolder(r);
      }
    }

    lemma NotMarked(id: ID)
      requires Valid()
      ensures id in s.entries && !s.entries[id].closed ==> id !in s.marked
    {
      hide Next, HolderOk, CloserOk, DeliveryOk, Once, OneHolder;
      RunInv(run, |run| - 1);
      assert id in s.entries ==> EntryOk(s, id);
    }

    lemma OnlyHolder(r: RequestID)
      requires Valid() && AtStart(s, r) && Holds(s.requests[r].start)
      ensures forall q :: Holder(s, q, s.requests[r].id) ==> q == r
      ensures !s.requests[r].start.Activating? && !s.requests[r].start.Minting? && !s.requests[r].start.Releasing? ==>
        s.requests[r].start.lease in s.leases
      ensures s.requests[r].id in s.store
    {
      hide Next, CloserOk, EntryOk, DeliveryOk, Once;
      RunInv(run, |run| - 1);
      RunStore(run, |run| - 1);
      assert HolderOk(s, r) && Holder(s, r, s.requests[r].id) && RequestRow(s, s.requests[r]);
    }

    /** Gives the claim back after a failure: the reservation is held by nobody, and as startable as
        before unless it was closed or swept meanwhile. */
    method ReleaseStart(r: RequestID)
      requires Valid() && AtStart(s, r) && s.requests[r].start.Releasing?
      modifies this
      ensures Valid() && old(run) <= run && AtStart(s, r) && s.requests[r] == old(s).requests[r].(start := Refused)
      ensures forall q :: !Holder(s, q, s.requests[r].id)
      ensures var id := s.requests[r].id;
        id in s.entries ==> (Claimable(s.entries, id, s.entries[id].key) <==> id !in s.marked)
      ensures s.deliveries == old(s).deliveries
      ensures s.leases == old(s).leases && s.store == old(s).store
    {
      hide IsRun;
      Freed(r);
      Take(Release(r));
      SameMarks(s.requests[r].id);
    }

    lemma Freed(r: RequestID)
      requires Valid() && AtStart(s, r) && s.requests[r].start.Releasing?
      ensures var s', q := Do(s, Release(r)), s.requests[r];
        && (forall o :: !Holder(s', o, q.id))
        && (q.id in s'.entries ==> (Claimable(s'.entries, q.id, s'.entries[q.id].key) <==> !s'.entries[q.id].closed))
    {
      hide Next;
      FailureFreesClaim(run, |run| - 1, r);
    }

    lemma SameMarks(id: ID)
      requires Valid()
      ensures id in s.entries ==> (s.entries[id].closed <==> id in s.marked)
    {
      hide Next, HolderOk, CloserOk, DeliveryOk, Once, OneHolder;
      RunInv(run, |run| - 1);
      assert id in s.entries ==> EntryOk(s, id);
    }

    /** What the store can answer at most: nothing goes through from the wrong stage. */
    function Possible(a: Answer, id: ID, from: Stage): Answer
      reads this
    {
      if id in s.store && s.store[id] == from then a else No
    }

    /** The first gate of activation. A refusal closes the reservation, as far as the store lets it. */
    method BeginMintAttempt(r: RequestID, a: Answer, closed: bool) returns (ok: bool)
      requires Valid() && AtStart(s, r) && s.requests[r].start.Activating?
      modifies this
      ensures Valid() && old(run) <= run && AtStart(s, r) && s.leases == old(s).leases && s.deliveries == old(s).deliveries
      ensures var id := s.requests[r].id;
        && id in old(s).store && id in s.store
        && (ok <==> id != "" && a == Yes && old(s).store[id] == Reserved)
        && (ok ==> s.store[id] == Stage.Minting) && (!ok && closed && id != "" ==> !Open(s.store[id]))
      ensures s.requests[r] == old(s).requests[r].(start := if ok then StartPhase.Minting else Releasing)
    {
      hide IsRun;
      OnlyHolder(r);
      var id := s.requests[r].id;
      var answer := if id == "" then No else Possible(a, id, Reserved);
      ok := answer == Yes;
      Take(BeginMint(r, answer, closed && id != ""));
    }

    /** Minting and the second gate. Whatever goes wrong, the reservation is closed and a minted token
        revoked, or the error says that it still has to be. */
    method ActivateLease(r: RequestID, m: Minted, a: Answer, revoked: bool, closed: bool) returns (ok: bool, errors: set<Error>)
      requires Valid() && AtStart(s, r) && s.requests[r].start.Minting?
      requires m.token !in provider.live && (m.valid ==> m.token != "")
      modifies this, provider
      ensures Valid() && old(run) <= run && AtStart(s, r) && s.deliveries == old(s).deliveries
      ensures s.requests[r] == old(s).requests[r].(start := s.requests[r].start)
      ensures var id := s.requests[r].id;
        && id in old(s).store && id in s.store
        && (ok <==> !m.failed && m.valid && a == Yes && old(s).store[id] == Stage.Minting)
        && (ok ==> s.store[id] == Active) && (!ok && closed ==> !Open(s.store[id]))
      ensures ok <==> errors == {}
      ensures ok ==> s.requests[r].start.Starting? && s.requests[r].start.lease in s.leases
      ensures ok ==> Usable(s.leases[s.requests[r].start.lease]) && provider.live == old(provider.live) + {m.token}
      ensures !ok ==> s.requests[r].start.Releasing? && old(provider.live) <= provider.live <= old(provider.live) + {m.token}
      ensures !ok ==> (RevocationRequired in errors <==> m.token in provider.live) && (m.token in provider.live <==> m.token != "" && !revoked)
      ensures !ok ==> (Stale in errors <==> !m.failed && m.valid) && (Unavailable in errors <==> m.failed || !m.valid || !closed)
    {
      hide IsRun;
      OnlyHolder(r);
      var l := FreshLease();
      var minted := !m.failed && m.valid;
      var answer := if minted then Possible(a, s.requests[r].id, Stage.Minting) else No;
      ok := answer == Yes;
      Take(Step.Activate(r, l, answer, closed));
      errors := MintErrors(m, ok, minted, revoked, closed);
    }

    method MintErrors(m: Minted, ok: bool, minted: bool, revoked: bool, closed: bool) returns (errors: set<Error>)
      requires m.token !in provider.live && (ok ==> m.token != "")
      modifies provider
      ensures ok ==> errors == {} && provider.live == old(provider.live) + {m.token}
      ensures !ok ==> errors != {} && old(provider.live) <= provider.live <= old(provider.live) + {m.token}
      ensures !ok ==> (RevocationRequired in errors <==> m.token in provider.live) && (m.token in provider.live <==> m.token != "" && !revoked)
      ensures !ok ==> (Stale in errors <==> minted) && (Unavailable in errors <==> !minted || !closed)
    {
      if m.token != "" {
        provider.live := provider.live + {m.token};
      }
      if ok {
        return {};
      }
      errors := if minted then {Stale} else {Unavailable};
      if m.token != "" {
        if revoked {
          provider.live := provider.live - {m.token};
        } else {
          errors := errors + {RevocationRequired};
        }
      }
      if !closed {
        errors := errors + {Unavailable};
      }
    }

    method FreshLease() returns (l: LeaseID)
      ensures l !in s.leases
    {
      l := 0;
      var todo := s.leases.Keys;
      while todo != {}
        invariant forall k :: k in s.leases && k !in todo ==> k < l
        decreases |todo|
      {
        var k :| k in todo;
        todo := todo - {k};
        if k >= l {
          l := k + 1;
        }
      }
    }

    /** The last gate: marks the durable lease running, if the lease can still be used, the row is
        active and the store agrees. */
    method StartLease(r: RequestID, a: Answer) returns (ok: bool)
      requires Valid() && AtStart(s, r) && s.requests[r].start.Starting?
      modifies this
      ensures Valid() && old(run) <= run && AtStart(s, r) && s.leases == old(s).leases && s.deliveries == old(s).deliveries
      ensures var id, l := s.requests[r].id, old(s).requests[r].start.lease;
        && l in s.leases && id in old(s).store && (ok <==> a == Yes && old(s).store[id] == Active && Usable(s.leases[l]))
        && s.requests[r] == old(s).requests[r].(start := if ok then Installing(l) else Abandoning(l))
    {
      hide IsRun;
      OnlyHolder(r);
      var answer := if Usable(s.leases[s.requests[r].start.lease]) then Possible(a, s.requests[r].id, Active) else No;
      ok := answer == Yes;
      Take(Start(r, answer));
    }

    /** A start whose lease could not be marked running: the lease is closed, the claim given back,
        and nothing delivered. */
    method AbandonStart(r: RequestID, revoked: bool, closed: bool, gap: seq<Step>)
      requires Valid() && AtStart(s, r) && s.requests[r].start.Abandoning?
      modifies this
      ensures Valid() && old(run) <= run && AtStart(s, r) && s.requests[r] == old(s).requests[r].(start := Refused)
      ensures forall q :: !Holder(s, q, s.requests[r].id)
      ensures gap == [] ==> var l := old(s).requests[r].start.lease;
        l in s.leases && (revoked ==> !s.leases[l].live) && s.store == CloseRow(old(s).store, s.requests[r].id, closed)
    {
      hide IsRun, CloseRow;
      OnlyHolder(r);
      Take(Abandon(r, revoked, closed));
      Others(r, gap);
      ReleaseStart(r);
    }

    /** Puts the lease where a close will find it, if the entry is still there: no other lease can be
        in its place. */
    method SetLease(r: RequestID)
      requires Valid() && AtStart(s, r) && s.requests[r].start.Installing?
      modifies this
      ensures Valid() && old(run) <= run && AtStart(s, r) && s.deliveries == old(s).deliveries && s.leases == old(s).leases
      ensures s.requests[r] == old(s).requests[r].(start := Delivering(old(s).requests[r].start.lease))
      ensures var id := s.requests[r].id;
        id in old(s).entries ==> id in s.entries && old(s).entries[id].lease.None? && s.entries[id].lease == Some(s.requests[r].start.lease)
    {
      hide IsRun;
      NoLeaseYet(r);
      Take(Install(r));
    }

    lemma NoLeaseYet(r: RequestID)
      requires Valid() && AtStart(s, r) && s.requests[r].start.Installing?
      ensures s.requests[r].id in s.entries ==> s.entries[s.requests[r].id].lease.None?
    {
      hide Next;
      OneActivation(run, |run| - 1, s.requests[r].id, r, r);
    }

    /** Hands the token out: it is the first and only delivery of the reservation. */
    method DeliverToken(r: RequestID) returns (token: Option<LeaseID>)
      requires Valid() && AtStart(s, r) && s.requests[r].start.Delivering?
      modifies this
      ensures Valid() && old(run) <= run && AtStart(s, r) && s.requests[r].id == old(s).requests[r].id
      ensures s.requests[r].key == old(s).requests[r].key
      ensures token.Some? <==> var l := old(s).requests[r].start.lease; l in old(s).leases && Usable(old(s).leases[l])
      ensures token.Some? ==> s.requests[r].start == Delivered(token.value) && Only(s.requests[r].id, token.value)
      ensures token.Some? ==> LiveDelivered(s, s.requests[r].id)
      ensures token.None? ==> s.requests[r].start.Undelivered? && s.deliveries == old(s).deliveries
    {
      hide IsRun;
      OnlyHolder(r);
      var l := s.requests[r].start.lease;
      token := if Usable(s.leases[l]) then Some(l) else None;
      Take(Deliver(r));
      if token.Some? {
        assert s.deliveries[|s.deliveries| - 1] == Delivery(s.requests[r].id, l);
        OnlyDelivery(s.requests[r].id, l);
      }
    }

    /** The reservation has had this delivery and no other. */
    ghost predicate Only(id: ID, l: LeaseID)
      reads this
    {
      Delivery(id, l) in s.deliveries && forall k :: 0 <= k < |s.deliveries| && s.deliveries[k].id == id ==> k == |s.deliveries| - 1
    }

    lemma OnlyDelivery(id: ID, l: LeaseID)
      requires Valid() && s.deliveries != [] && s.deliveries[|s.deliveries| - 1] == Delivery(id, l)
      ensures Only(id, l)
    {
      hide Next;
      forall k | 0 <= k < |s.deliveries| - 1 ensures s.deliveries[k].id != id {
        OneToken(run, |run| - 1, k, |s.deliveries| - 1);
      }
    }

    /** The whole start request. The answers of store and provider are parameters, but the store never
        answers yes from the wrong stage; `gaps` is what others do between its steps. */
    method HandleStart(r: RequestID, id: ID, key: Key, now: int, authorized: bool, a: Answers, gaps: seq<seq<Step>>)
      returns (token: Option<LeaseID>)
      requires Valid() && r !in s.requests
      requires a.minted.token !in provider.live && (a.minted.valid ==> a.minted.token != "")
      modifies this, provider
      ensures Valid() && old(run) <= run
      ensures !authorized ==> token.None? && s == old(s) && provider.live == old(provider.live)
      ensures token.Some? ==> AtStart(s, r) && s.requests[r] == StartRequest(id, key, Delivered(token.value)) && Only(id, token.value)
      ensures token.Some? ==> LiveDelivered(s, id)
      ensures authorized && token.None? ==> AtStart(s, r) && (s.requests[r].start.Refused? || s.requests[r].start.Undelivered?)
      ensures authorized && gaps == [] && Claimable(Swept(old(s).entries, now), id, key) ==>
        id in old(s).store && (token.Some? <==> old(s).store[id] == Reserved && AllYes(id, a))
      ensures authorized && gaps == [] && !Claimable(Swept(old(s).entries, now), id, key) ==>
        token.None? && s.entries == Swept(old(s).entries, now) && s.leases == old(s).leases && provider.live == old(provider.live)
    {
      hide IsRun, Can, Do, LiveDelivered;
      if !authorized {
        return None;
      }
      Arrived(r, StartRequest(id, key, Claiming));
      Others(r, Gap(gaps, 0));
      var claimed := ClaimStart(r, now);
      if !claimed {
        return None;
      }
      token := ServeClaimed(r, a, gaps);
    }

    /** Every party agrees. */
    predicate AllYes(id: ID, a: Answers) {
      id != "" && a.begun == Yes && !a.minted.failed && a.minted.valid && a.activated == Yes && a.started == Yes
    }

    /** From the claim to the delivery, or back. */
    method ServeClaimed(r: RequestID, a: Answers, gaps: seq<seq<Step>>) returns (token: Option<LeaseID>)
      requires Valid() && AtStart(s, r) && s.requests[r].start.Activating?
      requires a.minted.token !in provider.live && (a.minted.valid ==> a.minted.token != "")
      modifies this, provider
      ensures Valid() && old(run) <= run && AtStart(s, r)
      ensures s.requests[r] == old(s).requests[r].(start := s.requests[r].start)
      ensures token.Some? ==> s.requests[r].start == Delivered(token.value) && Only(s.requests[r].id, token.value)
      ensures token.Some? ==> LiveDelivered(s, s.requests[r].id)
      ensures token.None? ==> s.requests[r].start.Refused? || s.requests[r].start.Undelivered?
      ensures s.requests[r].id in old(s).store
      ensures gaps == [] ==> (token.Some? <==> old(s).store[s.requests[r].id] == Reserved && AllYes(s.requests[r].id, a))
    {
      hide IsRun, Can, Do, Only, Holder, Claimable, LiveDelivered;
      OnlyHolder(r);
      Others(r, Gap(gaps, 1));
      var ok := BeginMintAttempt(r, a.begun, a.closed);
      Others(r, Gap(gaps, 2));
      if !ok {
        ReleaseStart(r);
        return None;
      }
      var errors;
      ok, errors := ActivateLease(r, a.minted, a.activated, a.revoked, a.closed);
      Others(r, Gap(gaps, 3));
      if !ok {
        ReleaseStart(r);
        return None;
      }
      token := ServeActivated(r, a, gaps);
    }

    method ServeActivated(r: RequestID, a: Answers, gaps: seq<seq<Step>>) returns (token: Option<LeaseID>)
      requires Valid() && AtStart(s, r) && s.requests[r].start.Starting?
      modifies this
      ensures Valid() && old(run) <= run && AtStart(s, r)
      ensures s.requests[r] == old(s).requests[r].(start := s.requests[r].start)
      ensures token.Some? ==> s.requests[r].start == Delivered(token.value) && Only(s.requests[r].id, token.value)
      ensures token.Some? ==> LiveDelivered(s, s.requests[r].id)
      ensures token.None? ==> s.requests[r].start.Refused? || s.requests[r].start.Undelivered?
      ensures var id, l := s.requests[r].id, old(s).requests[r].start.lease;
        && id in old(s).store && l in old(s).leases
        && (gaps == [] ==> (token.Some? <==> a.started == Yes && old(s).store[id] == Active && Usable(old(s).leases[l])))
    {
      hide IsRun, Can, Do, Only, Holder, Claimable, LiveDelivered;
      OnlyHolder(r);
      var ok := StartLease(r, a.started);
      Others(r, Gap(gaps, 4));
      if !ok {
        AbandonStart(r, a.revoked, a.closed, Gap(gaps, 5));
        return None;
      }
      SetLease(r);
      Others(r, Gap(gaps, 5));
      token := DeliverToken(r);
    }

    // ----- close -----

    /** The snapshot only the owner gets. */
    method MatchEntry(r: RequestID, now: int) returns (snapshot: Option<Entry>)
      requires Valid() && AtClose(s, r) && s.requests[r].close.Matching?
      modifies this
      ensures Valid() && old(run) <= run && AtClose(s, r) && old(s).marked <= s.marked
      ensures s.requests == old(s).requests[r := s.requests[r]]
      ensures s == old(s).(entries := Swept(old(s).entries, now), requests := s.requests)
      ensures var q := old(s).requests[r];
        snapshot == if Matches(s.entries, q.id, q.key) then Some(s.entries[q.id]) else None
      ensures s.requests[r] == old(s).requests[r].(close :=
        if snapshot.None? then Failed else if snapshot.value.closed then AlreadyClosed else Closing(snapshot.value.lease))
      ensures snapshot.Some? && snapshot.value.closed ==> s.requests[r].id in s.marked
    {
      hide IsRun;
      Sweep(now);
      var q := s.requests[r];
      snapshot := if Matches(s.entries, q.id, q.key) then Some(s.entries[q.id]) else None;
      SameMarks(q.id);
      Take(Match(r));
    }

    /** Closes the lease, store and token, or the store alone when there is no lease in the snapshot.
        Success means that the reservation is consumed. */
    method CloseSeen(r: RequestID, a: Answer, revoked: bool) returns (ok: bool)
      requires Valid() && AtClose(s, r) && s.requests[r].close.Closing?
      modifies this
      ensures Valid() && old(run) <= run && AtClose(s, r) && old(s).marked <= s.marked
      ensures s.requests == old(s).requests[r := s.requests[r]]
      ensures var seen := old(s).requests[r].close.seen;
        && s.requests[r] == old(s).requests[r].(close := if ok then Marking(seen) else Failed)
        && (seen.Some? ==> seen.value in old(s).leases && seen.value in s.leases && (ok ==> !s.leases[seen.value].live))
        && (seen.Some? && revoked ==> !s.leases[seen.value].live)
        && (seen.None? ==> (ok <==> a == Yes && CanConsume(old(s).store, s.requests[r].id)))
        && (seen.Some? ==>
              (ok <==> a == Yes && CanConsume(old(s).store, s.requests[r].id) && (revoked || !old(s).leases[seen.value].live)))
      ensures s.store == CloseRow(old(s).store, s.requests[r].id, a != No)
      ensures ok ==> s.requests[r].id in s.store && s.store[s.requests[r].id] == Consumed
    {
      hide IsRun;
      var seen, id := s.requests[r].close.seen, s.requests[r].id;
      SeenExists(r);
      var dropped := seen.Some? && (revoked || !s.leases[seen.value].live);
      ok := a == Yes && CanConsume(s.store, id) && (seen.None? || dropped);
      Take(Close(r, ok, a != No, dropped));
    }

    lemma SeenExists(r: RequestID)
      requires Valid() && AtClose(s, r) && s.requests[r].close.Closing?
      ensures s.requests[r].close.seen.Some? ==> s.requests[r].close.seen.value in s.leases
    {
      hide Next, HolderOk, EntryOk, DeliveryOk, Once, OneHolder;
      RunInv(run, |run| - 1);
      assert CloserOk(s, r);
    }

    /** Records the close: from here on nobody can claim a start, and what a close that saw the lease
        leaves behind is settled for good. */
    method MarkClosed(r: RequestID)
      requires Valid() && AtClose(s, r) && s.requests[r].close.Marking?
      modifies this
      ensures Valid() && old(run) <= run && AtClose(s, r) && s.requests == old(s).requests[r := s.requests[r]]
      ensures s.requests[r] == old(s).requests[r].(close := Finished(old(s).requests[r].close.seen))
      ensures s.requests[r].id in s.marked && forall key :: !Claimable(s.entries, s.requests[r].id, key)
      ensures s.requests[r].close.seen.Some? || (forall q :: Holder(s, q, s.requests[r].id) ==> !ThroughAndLive(s, s.requests[q].start)) ==>
        Settled(s, s.requests[r].id)
    {
      hide IsRun, Settled, ThroughAndLive;
      Take(Mark(r));
      SameMarks(s.requests[r].id);
      WhatIsSettled(r);
    }

    lemma WhatIsSettled(r: RequestID)
      requires Valid() && AtClose(s, r) && s.requests[r].close.Finished? && s.requests[r].id in s.marked
      ensures s.requests[r].close.seen.Some? || (forall q :: Holder(s, q, s.requests[r].id) ==> !ThroughAndLive(s, s.requests[q].start)) ==>
        Settled(s, s.requests[r].id)
    {
      hide Next, Settled, ThroughAndLive;
      WhatTheMarkLeaves(run, s.requests[r].id);
      if s.requests[r].close.seen.Some? {
        SeenMeansSettled(run, |run| - 1, r);
      }
    }

    /** The whole close request. A successful one has closed the reservation for every later start;
        a working token can still turn up if and only if a start was already through the store's last
        gate and its token is not gone. */
    method HandleClose(r: RequestID, id: ID, key: Key, now: int, authorized: bool, a: Answer, revoked: bool,
                       gaps: seq<seq<Step>>)
      returns (ok: bool)
      requires Valid() && r !in s.requests
      modifies this
      ensures Valid() && old(run) <= run
      ensures !authorized ==> !ok && s == old(s)
      ensures ok ==> id in s.marked && AtClose(s, r) && (s.requests[r].close.Finished? || s.requests[r].close.AlreadyClosed?)
      ensures ok ==> (CanEndLive(run, id) <==> exists q :: Holder(s, q, id) && ThroughAndLive(s, s.requests[q].start))
      ensures ok && s.requests[r].close.Finished? && s.requests[r].close.seen.Some? ==> Settled(s, id)
      ensures authorized && !ok ==> AtClose(s, r) && s.requests[r].close.Failed?
      ensures authorized && gaps == [] && !Matches(Swept(old(s).entries, now), id, key) ==>
        !ok && s == old(s).(entries := Swept(old(s).entries, now), requests := s.requests)
      ensures (authorized && gaps == [] && Matches(Swept(old(s).entries, now), id, key) && a == Yes && revoked
        && id in old(s).store && old(s).store[id] in {Reserved, Stage.Minting, Active, Running, Consumed}) ==> ok
      ensures ok ==> forall k :: !Claimable(s.entries, id, k)
      ensures authorized && gaps == [] ==> s.requests == old(s).requests[r := s.requests[r]]
    {
      hide IsRun, Can, Do, Settled, CanEndLive, ThroughAndLive, Holder;
      if !authorized {
        return false;
      }
      Arrived(r, CloseRequest(id, key, Matching));
      Others(r, Gap(gaps, 0));
      var snapshot := MatchEntry(r, now);
      if snapshot.None? {
        return false;
      }
      if snapshot.value.closed {
        Exactly(id);
        return true;
      }
      ok := CloseOwned(r, a, revoked, gaps);
    }

    /** From the snapshot to the mark. */
    method CloseOwned(r: RequestID, a: Answer, revoked: bool, gaps: seq<seq<Step>>) returns (ok: bool)
      requires Valid() && AtClose(s, r) && s.requests[r].close.Closing?
      modifies this
      ensures Valid() && old(run) <= run && AtClose(s, r)
      ensures s.requests[r] == old(s).requests[r].(close := if ok then Finished(old(s).requests[r].close.seen) else Failed)
      ensures var id := s.requests[r].id;
        && (ok ==> id in s.marked && forall k :: !Claimable(s.entries, id, k))
        && (ok ==> (CanEndLive(run, id) <==> exists q :: Holder(s, q, id) && ThroughAndLive(s, s.requests[q].start)))
        && (ok && s.requests[r].close.seen.Some? ==> Settled(s, id))
        && (gaps == [] && a == Yes && revoked && CanConsume(old(s).store, s.requests[r].id) ==> ok)
      ensures gaps == [] ==> s.requests == old(s).requests[r := s.requests[r]]
    {
      hide IsRun, Can, Do, Settled, CanEndLive, ThroughAndLive, Holder, Claimable;
      Others(r, Gap(gaps, 1));
      ok := CloseSeen(r, a, revoked);
      if !ok {
        return false;
      }
      Others(r, Gap(gaps, 2));
      MarkClosed(r);
      Exactly(s.requests[r].id);
    }

    lemma Exactly(id: ID)
      requires Valid() && id in s.marked
      ensures CanEndLive(run, id) <==> exists q :: Holder(s, q, id) && ThroughAndLive(s, s.requests[q].start)
    {
      CloseMissesExactly(run, id);
    }

    // ----- a reservation's first half hour -----

    /** A begun reservation can be started by its owner for 1800 seconds: undisturbed and with every
        party agreeing, the start delivers exactly if it comes before they are over. */
    method BeginThenStart(id: ID, key: Key, t0: int, r: RequestID, other: Key, t1: int, a: Answers) returns (token: Option<LeaseID>)
      requires Valid() && id !in s.begun && r !in s.requests
      requires a.minted.token !in provider.live && (a.minted.valid ==> a.minted.token != "")
      modifies this, provider
      ensures Valid() && old(run) <= run
      ensures token.Some? <==> other == key && t1 < t0 + 1800 && AllYes(id, a)
      ensures token.Some? ==> Only(id, token.value) && LiveDelivered(s, id)
    {
      hide IsRun, Can, Do, LiveDelivered, Only;
      HandleBegin(id, key, t0);
      token := HandleStart(r, id, other, t1, true, a, []);
    }

    /** And closed by its owner for as long; then nobody can start it and no token ever works. */
    method BeginThenClose(id: ID, key: Key, t0: int, r: RequestID, other: Key, t1: int) returns (ok: bool)
      requires Valid() && id !in s.begun && r !in s.requests
      modifies this
      ensures Valid() && old(run) <= run
      ensures ok <==> other == key && t1 < t0 + 1800
      ensures ok ==> !CanEndLive(run, id) && forall k :: !Claimable(s.entries, id, k)
    {
      hide IsRun, Can, Do, CanEndLive;
      HandleBegin(id, key, t0);
      ghost var begun := s;
      ok := HandleClose(r, id, other, t1, true, Yes, true, []);
      assert ok ==> forall q :: Holder(s, q, id) ==> Holder(begun, q, id);
    }
  }
}
