/** What closing a reservation achieves: exactly when a working token can still reach an agent. */
module CheckoutClose {
  import opened Wrappers
  import opened Checkout
  import opened CheckoutProtocol

  /** A delivered token of this reservation still works. */
  ghost predicate LiveDelivered(s: State, id: ID) {
    exists k :: 0 <= k < |s.deliveries| && s.deliveries[k].id == id
      && s.deliveries[k].lease in s.leases && s.leases[s.deliveries[k].lease].live
  }

  /** A start that can no longer end with a working token in the agent's hands: the store has moved
      past the gate it is waiting at, its lease cannot be used any more, or it is over. */
  predicate Lost(s: State, id: ID, p: StartPhase)
    requires id in s.store
  {
    match p
    case Activating => s.store[id] != Reserved
    case Minting => s.store[id] != Stage.Minting
    case Starting(l) => s.store[id] != Active || (l in s.leases && !Usable(s.leases[l]))
    case Installing(l) => l in s.leases && !Usable(s.leases[l])
    case Delivering(l) => l in s.leases && !Usable(s.leases[l])
    case Delivered(l) => l in s.leases && !s.leases[l].live
    case _ => true
  }

  /** Nobody holds the reservation except starts that are lost, and no new start can be let through. */
  ghost predicate Settled(s: State, id: ID) {
    id in s.store && (s.store[id] == Reserved ==> id !in s.entries) && AllLost(s, id)
  }

  ghost predicate AllLost(s: State, id: ID)
    requires id in s.store
  {
    forall r :: Holder(s, r, id) ==> Lost(s, id, s.requests[r].start)
  }

  // ----- settled for good -----

  /** A waiting start and its row: the store is at the gate the start waits at, or past it. */
  ghost predicate AtGate(s: State, id: ID, p: StartPhase)
    requires id in s.store
  {
    && (p.Minting? ==> Rank(s.store[id]) >= 1)
    && (p.Starting? ==> Rank(s.store[id]) >= 2)
  }

  lemma HolderAtGate(s: State, r: RequestID, id: ID)
    requires Inv(s) && StoreOk(s) && Holder(s, r, id)
    ensures id in s.store && AtGate(s, id, s.requests[r].start)
    ensures s.requests[r].start.Releasing? || s.requests[r].start.Activating? || s.store[id] != Reserved
  {
    hide Inv;
    FromInv(s, r);
    RowOf(s, r);
    if s.requests[r].start.Starting? {
      assert LeaseRow(s, s.requests[r].start.lease);
    }
  }

  lemma LostStays(s: State, s': State, id: ID, p: StartPhase)
    requires id in s.store && NoBetter(s, s') && Forward(s.store, s'.store) && AtGate(s, id, p) && Lost(s, id, p)
    ensures Lost(s', id, p)
  {
  }

  /** A start claimed anew on a settled reservation is lost from the beginning. */
  lemma ClaimSettled(s: State, t: Step, id: ID)
    requires Settled(s, id) && Can(s, t) && t.Claim? && s.requests[t.r].id == id
    ensures id in Do(s, t).store && t.r in Do(s, t).requests
    ensures Holder(Do(s, t), t.r, id) ==> Lost(Do(s, t), id, Do(s, t).requests[t.r].start)
  {
    hide DoClose, DoOther, CanClose, CanOther, Claimed, AllLost;
  }

  /** A step of a lost start leaves it lost. */
  lemma OwnStepSettled(s: State, t: Step, id: ID)
    requires Settled(s, id) && Can(s, t) && StartStep(t) && s.requests[t.r].id == id && NoBetter(s, Do(s, t))
    requires Forward(s.store, Do(s, t).store)
    ensures id in Do(s, t).store && t.r in Do(s, t).requests
    ensures Holder(Do(s, t), t.r, id) ==> Lost(Do(s, t), id, Do(s, t).requests[t.r].start)
  {
    if t.Claim? {
      ClaimSettled(s, t, id);
    } else {
      hide DoClose, DoOther, CanClose, CanOther, Released, WithLease, Claimed, Claimable, CloseRow, Moved, Forward;
      HoldsAlready(s, t, id);
      InStore(s.store, Do(s, t).store, id);
    }
  }

  lemma HoldsAlready(s: State, t: Step, id: ID)
    requires Settled(s, id) && Can(s, t) && StartStep(t) && !t.Claim? && s.requests[t.r].id == id
    ensures Lost(s, id, s.requests[t.r].start)
  {
    hide DoStart, DoClose, DoOther, CanClose, CanOther, Allows, Usable, Lost;
    assert Holder(s, t.r, id);
  }

  lemma InStore(rows: Rows, rows': Rows, id: ID)
    requires Forward(rows, rows') && id in rows
    ensures id in rows'
  {
  }

  /** Rows and entries of a settled reservation. */
  lemma StillShut(s: State, t: Step, id: ID)
    requires Inv(s) && StoreOk(s) && Settled(s, id) && Can(s, t)
    ensures var s' := Do(s, t); id in s'.store && (s'.store[id] == Reserved ==> id !in s'.entries)
  {
    hide Inv, Can, Do, Lost;
    StepForward(s, t);
    NoNewEntry(s, t, id);
  }

  lemma NoNewEntry(s: State, t: Step, id: ID)
    requires Can(s, t) && id in s.begun
    ensures id !in s.entries ==> id !in Do(s, t).entries
  {
    if StartStep(t) {
      hide DoClose, DoOther, CanClose, CanOther, Usable, CloseRow, Moved, Allows;
    } else {
      hide DoStart, CanStart, Usable, CloseRow, Open;
    }
  }

  lemma StepSettled(s: State, t: Step, id: ID)
    requires Inv(s) && StoreOk(s) && Settled(s, id) && Can(s, t)
    ensures Settled(Do(s, t), id)
  {
    hide Inv, StoreOk, Can, Do, Lost, NoBetter, Forward, AtGate;
    StepNoBetter(s, t);
    RowsBegun(s);
    StepForward(s, t);
    StillShut(s, t, id);
    var s' := Do(s, t);
    forall r | Holder(s', r, id) ensures Lost(s', id, s'.requests[r].start) {
      HolderBefore(s, t, r, id);
      if s'.requests[r] == s.requests[r] {
        assert Holder(s, r, id);
        HolderAtGate(s, r, id);
        LostStays(s, s', id, s.requests[r].start);
      } else {
        OwnStepSettled(s, t, id);
      }
    }
  }

  lemma RowsBegun(s: State)
    requires StoreOk(s)
    ensures s.begun == s.store.Keys
  {
  }

  /** A holder was there before as a start request of the same reservation, and only its own step can
      have moved it. */
  lemma HolderBefore(s: State, t: Step, r: RequestID, id: ID)
    requires Can(s, t) && Holder(Do(s, t), r, id)
    ensures AtStart(s, r) && s.requests[r].id == id
    ensures Do(s, t).requests[r] != s.requests[r] ==> StartStep(t) && t.r == r
  {
    hide CanStart, CanClose, DoStart, DoClose, DoOther;
  }

  /** Once settled, settled for good, and no delivered token works. */
  lemma {:induction false} SettledForGood(run: seq<State>, i: nat, j: nat, id: ID)
    requires IsRun(run) && i <= j < |run| && Settled(run[i], id)
    ensures Settled(run[j], id) && !LiveDelivered(run[j], id)
    decreases j
  {
    hide Can, Do, Inv, StoreOk, Settled, LiveDelivered;
    RunInv(run, j);
    if i < j {
      SettledForGood(run, i, j - 1, id);
      RunInv(run, j - 1);
      RunStore(run, j - 1);
      assert Next(run[j - 1], run[j - 1 + 1]);
      var t :| Can(run[j - 1], t) && run[j] == Do(run[j - 1], t);
      StepSettled(run[j - 1], t, id);
    }
    SettledIsDead(run[j], id);
  }

  lemma SettledIsDead(s: State, id: ID)
    requires Inv(s) && Settled(s, id)
    ensures !LiveDelivered(s, id)
  {
    hide Once, HolderOk, CloserOk, EntryOk, OneHolder;
    forall k | 0 <= k < |s.deliveries| && s.deliveries[k].id == id
      ensures s.deliveries[k].lease in s.leases && !s.leases[s.deliveries[k].lease].live
    {
      assert DeliveryOk(s, s.deliveries[k]);
      var r :| AtStart(s, r) && s.requests[r].id == id && s.requests[r].start == Delivered(s.deliveries[k].lease);
      assert Holder(s, r, id);
    }
  }

  // ----- what a close leaves behind -----

  /** A start already let through every gate of the store, whose token can still be delivered or has
      been and works. */
  predicate ThroughAndLive(s: State, p: StartPhase) {
    match p
    case Installing(l) => l in s.leases && Usable(s.leases[l])
    case Delivering(l) => l in s.leases && Usable(s.leases[l])
    case Delivered(l) => l in s.leases && s.leases[l].live
    case _ => false
  }

  /** After the mark the store has consumed the reservation, so only a start that was already through
      its last gate can matter: one still activating, minting or starting is lost. */
  lemma WhatTheMarkLeaves(run: seq<State>, id: ID)
    requires IsRun(run) && id in run[|run| - 1].marked
    ensures var s := run[|run| - 1];
      !Settled(s, id) <==> exists r :: Holder(s, r, id) && ThroughAndLive(s, s.requests[r].start)
  {
    hide Next, Once, CloserOk, EntryOk, OneHolder, RequestRow, LeaseRow;
    var s := run[|run| - 1];
    RunInv(run, |run| - 1);
    RunStore(run, |run| - 1);
    forall r | Holder(s, r, id) ensures Lost(s, id, s.requests[r].start) <==> !ThroughAndLive(s, s.requests[r].start) {
      assert HolderOk(s, r);
    }
  }

  /** A close that saw the lease settles its reservation. */
  lemma SeenMeansSettled(run: seq<State>, i: nat, r: RequestID)
    requires IsRun(run) && i < |run| && AtClose(run[i], r)
    requires run[i].requests[r].close.Finished? && run[i].requests[r].close.seen.Some?
    ensures Settled(run[i], run[i].requests[r].id)
  {
    hide Once, EntryOk, HolderOk, Next, LeaseRow;
    RunInv(run, i);
    RunStore(run, i);
    var s, id, l := run[i], run[i].requests[r].id, run[i].requests[r].close.seen.value;
    assert CloserOk(s, r) && RequestRow(s, s.requests[r]);
    forall q | Holder(s, q, id) ensures Lost(s, id, s.requests[q].start) {
      OwnerIsHolder(s, id, l, q);
    }
  }

  /** A close that finds nobody holding the reservation settles it too; not one token is ever
      delivered for it. */
  lemma {:induction false} NobodyHoldsNobodyGets(run: seq<State>, i: nat, j: nat, id: ID)
    requires IsRun(run) && i <= j < |run| && id in run[i].marked && forall q :: !Holder(run[i], q, id)
    ensures id in run[j].marked && (forall q :: !Holder(run[j], q, id))
    ensures forall k :: 0 <= k < |run[j].deliveries| ==> run[j].deliveries[k].id != id
    decreases j
  {
    hide Can, Do, Inv;
    RunInv(run, j);
    if i < j {
      NobodyHoldsNobodyGets(run, i, j - 1, id);
      RunInv(run, j - 1);
      assert Next(run[j - 1], run[j - 1 + 1]);
      var t :| Can(run[j - 1], t) && run[j] == Do(run[j - 1], t);
      StillNobody(run[j - 1], t, id);
    }
    NobodyDelivered(run[j], id);
  }

  lemma StillNobody(s: State, t: Step, id: ID)
    requires Inv(s) && Can(s, t) && id in s.marked && forall q :: !Holder(s, q, id)
    ensures id in Do(s, t).marked && forall q :: !Holder(Do(s, t), q, id)
  {
    hide Inv, Can, Do, NoBetter;
    StepNoBetter(s, t);
    var s' := Do(s, t);
    forall q ensures !Holder(s', q, id) {
      assert !Holder(s, q, id);
      if Holder(s', q, id) {
        HolderBefore(s, t, q, id);
        FromInv(s, q);
        StillUnclaimed(s, t, id);
      }
    }
  }

  /** A start step on a marked reservation that holds nothing claims nothing. */
  lemma StillUnclaimed(s: State, t: Step, id: ID)
    requires Can(s, t) && StartStep(t) && s.requests[t.r].id == id && !Holder(s, t.r, id)
    requires id in s.entries ==> s.entries[id].closed
    ensures !Holder(Do(s, t), t.r, id)
  {
    hide DoClose, DoOther, CanClose, CanOther, Released, WithLease, Claimed, CloseRow, Moved, Allows;
  }

  lemma NobodyDelivered(s: State, id: ID)
    requires Inv(s) && forall q :: !Holder(s, q, id)
    ensures forall k :: 0 <= k < |s.deliveries| ==> s.deliveries[k].id != id
  {
    hide Once, HolderOk, CloserOk, EntryOk, OneHolder;
    forall k | 0 <= k < |s.deliveries| ensures s.deliveries[k].id != id {
      assert DeliveryOk(s, s.deliveries[k]);
      var r :| AtStart(s, r) && s.requests[r].id == s.deliveries[k].id && s.requests[r].start == Delivered(s.deliveries[k].lease);
      assert Holder(s, r, s.deliveries[k].id);
    }
  }

  // ----- the other direction -----

  lemma {:induction false} Largest(keys: set<nat>) returns (m: nat)
    ensures forall l :: l in keys ==> l <= m
    decreases |keys|
  {
    m := 0;
    if keys != {} {
      var x :| x in keys;
      var n := Largest(keys - {x});
      m := if x > n then x else n;
      forall l | l in keys ensures l <= m {
        assert l == x || l in keys - {x};
      }
    }
  }

  /** The run goes on, and only one request has moved. */
  ghost predicate Onward(run: seq<State>, more: seq<State>, r: RequestID) {
    && IsRun(run) && IsRun(more) && run <= more && r in run[|run| - 1].requests && r in more[|more| - 1].requests
    && more[|more| - 1].requests == run[|run| - 1].requests[r := more[|more| - 1].requests[r]]
  }

  /** The lease the request is at can be used. */
  predicate HasUsable(s: State, r: RequestID) {
    && AtStart(s, r) && (s.requests[r].start.Starting? || s.requests[r].start.Installing? || s.requests[r].start.Delivering?)
    && s.requests[r].start.lease in s.leases && Usable(s.leases[s.requests[r].start.lease])
  }

  lemma DeliverOn(run: seq<State>, r: RequestID) returns (more: seq<State>)
    requires IsRun(run) && HasUsable(run[|run| - 1], r) && run[|run| - 1].requests[r].start.Delivering?
    ensures Onward(run, more, r) && LiveDelivered(more[|more| - 1], run[|run| - 1].requests[r].id)
  {
    hide DoClose, DoOther, CanClose, CanOther, Next;
    var s := run[|run| - 1];
    RunGrows(run, Deliver(r));
    var s' := Do(s, Deliver(r));
    more := run + [s'];
    assert s'.deliveries[|s.deliveries|] == Delivery(s.requests[r].id, s.requests[r].start.lease);
  }

  lemma InstallOn(run: seq<State>, r: RequestID) returns (more: seq<State>)
    requires IsRun(run) && HasUsable(run[|run| - 1], r) && run[|run| - 1].requests[r].start.Installing?
    ensures Onward(run, more, r) && LiveDelivered(more[|more| - 1], run[|run| - 1].requests[r].id)
  {
    hide WithLease, LiveDelivered, DoClose, DoOther, CanClose, CanOther, Next;
    RunGrows(run, Install(r));
    more := DeliverOn(run + [Do(run[|run| - 1], Install(r))], r);
  }

  lemma StartOn(run: seq<State>, r: RequestID) returns (more: seq<State>)
    requires IsRun(run) && HasUsable(run[|run| - 1], r) && run[|run| - 1].requests[r].start.Starting?
    requires run[|run| - 1].requests[r].id in run[|run| - 1].store && run[|run| - 1].store[run[|run| - 1].requests[r].id] == Active
    ensures Onward(run, more, r) && LiveDelivered(more[|more| - 1], run[|run| - 1].requests[r].id)
  {
    hide LiveDelivered, DoClose, DoOther, CanClose, CanOther, Next;
    RunGrows(run, Start(r, Yes));
    more := InstallOn(run + [Do(run[|run| - 1], Start(r, Yes))], r);
  }

  lemma ActivateOn(run: seq<State>, r: RequestID) returns (more: seq<State>)
    requires IsRun(run) && AtStart(run[|run| - 1], r) && run[|run| - 1].requests[r].start.Minting?
    requires var s := run[|run| - 1]; s.requests[r].id in s.store && s.store[s.requests[r].id] == Stage.Minting
    ensures Onward(run, more, r) && LiveDelivered(more[|more| - 1], run[|run| - 1].requests[r].id)
  {
    hide LiveDelivered, DoClose, DoOther, CanClose, CanOther, Next;
    var s := run[|run| - 1];
    var m := Largest(s.leases.Keys);
    assert m + 1 !in s.leases;
    RunGrows(run, Activate(r, m + 1, Yes, false));
    more := StartOn(run + [Do(s, Activate(r, m + 1, Yes, false))], r);
  }

  lemma MintOn(run: seq<State>, r: RequestID) returns (more: seq<State>)
    requires IsRun(run) && AtStart(run[|run| - 1], r) && run[|run| - 1].requests[r].start.Activating?
    requires var s := run[|run| - 1]; s.requests[r].id in s.store && s.store[s.requests[r].id] == Reserved
    ensures Onward(run, more, r) && LiveDelivered(more[|more| - 1], run[|run| - 1].requests[r].id)
  {
    hide LiveDelivered, DoClose, DoOther, CanClose, CanOther, Next;
    var s := run[|run| - 1];
    RunGrows(run, BeginMint(r, Yes, false));
    more := ActivateOn(run + [Do(s, BeginMint(r, Yes, false))], r);
  }

  /** A start that is not lost can still end with a working token. */
  lemma NotLostDelivers(run: seq<State>, r: RequestID, id: ID) returns (more: seq<State>)
    requires IsRun(run) && Holder(run[|run| - 1], r, id) && id in run[|run| - 1].store
    requires !Lost(run[|run| - 1], id, run[|run| - 1].requests[r].start)
    ensures Onward(run, more, r) && LiveDelivered(more[|more| - 1], id)
  {
    hide LiveDelivered, Can, Do, Next;
    var s := run[|run| - 1];
    RunInv(run, |run| - 1);
    FromInv(s, r);
    match s.requests[r].start {
      case Activating => more := MintOn(run, r);
      case Minting => more := ActivateOn(run, r);
      case Starting(_) => more := StartOn(run, r);
      case Installing(_) => more := InstallOn(run, r);
      case Delivering(_) => more := DeliverOn(run, r);
      case _ =>
        more := run;
        AlreadyDelivered(run, r, id);
    }
  }

  /** The start is over: its token was delivered. */
  lemma AlreadyDelivered(run: seq<State>, r: RequestID, id: ID)
    requires IsRun(run) && AtStart(run[|run| - 1], r) && run[|run| - 1].requests[r].start.Delivered?
    requires var s := run[|run| - 1]; var l := s.requests[r].start.lease; s.requests[r].id == id && l in s.leases && s.leases[l].live
    ensures LiveDelivered(run[|run| - 1], id)
  {
    hide Can, Do, LiveDelivered;
    Recorded(run, |run| - 1, r);
    DeliveryIsLive(run[|run| - 1], r);
  }

  lemma DeliveryIsLive(s: State, r: RequestID)
    requires AtStart(s, r) && s.requests[r].start.Delivered? && Delivery(s.requests[r].id, s.requests[r].start.lease) in s.deliveries
    requires s.requests[r].start.lease in s.leases && s.leases[s.requests[r].start.lease].live
    ensures LiveDelivered(s, s.requests[r].id)
  {
    var k :| 0 <= k < |s.deliveries| && s.deliveries[k] == Delivery(s.requests[r].id, s.requests[r].start.lease);
  }

  ghost predicate OnRecord(s: State, r: RequestID) {
    AtStart(s, r) && s.requests[r].start.Delivered? ==>
      Delivery(s.requests[r].id, s.requests[r].start.lease) in s.deliveries
  }

  /** A finished delivery is on record. */
  lemma {:induction false} Recorded(run: seq<State>, i: nat, r: RequestID)
    requires IsRun(run) && i < |run|
    ensures OnRecord(run[i], r)
  {
    hide Can, Do;
    if i > 0 {
      hide OnRecord;
      Recorded(run, i - 1, r);
      assert Next(run[i - 1], run[i - 1 + 1]);
      var t :| Can(run[i - 1], t) && run[i] == Do(run[i - 1], t);
      StepRecorded(run[i - 1], t, r);
    }
  }

  lemma StepRecorded(s: State, t: Step, r: RequestID)
    requires Can(s, t) && OnRecord(s, r)
    ensures OnRecord(Do(s, t), r)
  {
    if t.Deliver? {
      hide DoClose, DoOther, CanClose, CanOther, Released, WithLease, Claimed, CloseRow, Moved, Allows, Claimable;
    } else if StartStep(t) {
      OnlyDeliverDelivers(s, t);
      hide CanStart, DoStart, DoClose, DoOther;
    } else {
      hide CanStart, DoStart, DoClose, CanClose, DoOther;
    }
  }

  lemma OnlyDeliverDelivers(s: State, t: Step)
    requires Can(s, t) && StartStep(t) && !t.Deliver?
    ensures t.r in Do(s, t).requests && Do(s, t).requests[t.r].StartRequest? && !Do(s, t).requests[t.r].start.Delivered?
  {
    hide DoClose, DoOther, CanClose, CanOther, Released, WithLease, Claimed, Usable, CloseRow, Moved, Allows, Claimable;
  }

  // ----- a reservation the store still has open -----

  /** A new start of an unclaimed reservation that is still reserved can go all the way. */
  lemma FreshStart(run: seq<State>, id: ID) returns (more: seq<State>)
    requires IsRun(run) && id in run[|run| - 1].entries && id in run[|run| - 1].store
    requires !run[|run| - 1].entries[id].started && !run[|run| - 1].entries[id].closed && run[|run| - 1].store[id] == Reserved
    ensures IsRun(more) && run <= more && LiveDelivered(more[|more| - 1], id)
  {
    hide LiveDelivered, DoClose, CanClose, Next, Usable, CloseRow, Moved, Allows;
    var s := run[|run| - 1];
    var m := Largest(s.requests.Keys);
    var r, q := m + 1, StartRequest(id, s.entries[id].key, Claiming);
    assert r !in s.requests;
    RunGrows(run, Arrive(r, q));
    var s1 := Do(s, Arrive(r, q));
    RunGrows(run + [s1], Claim(r));
    var s2 := Do(s1, Claim(r));
    more := MintOn(run + [s1] + [s2], r);
  }

  lemma ReleaseFirst(run: seq<State>, r: RequestID, id: ID) returns (more: seq<State>)
    requires IsRun(run) && Holder(run[|run| - 1], r, id) && run[|run| - 1].requests[r].start.Releasing?
    requires id in run[|run| - 1].entries && id in run[|run| - 1].store && run[|run| - 1].store[id] == Reserved
    requires !run[|run| - 1].entries[id].closed
    ensures IsRun(more) && run <= more && LiveDelivered(more[|more| - 1], id)
  {
    hide LiveDelivered, DoClose, CanClose, DoOther, CanOther, Next, Usable, CloseRow, Moved, Allows, Inv;
    RunInv(run, |run| - 1);
    FromInv(run[|run| - 1], r);
    RunGrows(run, Release(r));
    more := FreshStart(run + [Do(run[|run| - 1], Release(r))], id);
  }

  /** An entry of a reservation the store still has open, whose holders are all lost. */
  lemma StillOpen(run: seq<State>, id: ID) returns (more: seq<State>)
    requires IsRun(run) && id in run[|run| - 1].entries && id in run[|run| - 1].store && run[|run| - 1].store[id] == Reserved
    requires AllLost(run[|run| - 1], id)
    ensures IsRun(more) && run <= more && LiveDelivered(more[|more| - 1], id)
  {
    hide LiveDelivered, Next, Once, HolderOk, CloserOk, OneHolder, RequestRow, LeaseRow;
    var s := run[|run| - 1];
    RunInv(run, |run| - 1);
    RunStore(run, |run| - 1);
    assert EntryOk(s, id);
    if Held(s, id) {
      var r :| Holder(s, r, id);
      HolderAtGate(s, r, id);
      more := ReleaseFirst(run, r, id);
    } else {
      more := FreshStart(run, id);
    }
  }

  // ----- exactly -----

  ghost predicate CanEndLive(run: seq<State>, id: ID) {
    exists more :: IsRun(more) && run <= more && LiveDelivered(more[|more| - 1], id)
  }

  /** Exactly when a working token of a reservation can still reach an agent, in every state of every
      run: a start holds it that is not lost, or the store still has it reserved and the registry
      still knows it. */
  lemma LiveExactly(run: seq<State>, id: ID)
    requires IsRun(run) && id in run[|run| - 1].begun
    ensures CanEndLive(run, id) <==> !Settled(run[|run| - 1], id)
  {
    hide LiveDelivered, Next, Lost, Inv, RequestRow, LeaseRow;
    var s := run[|run| - 1];
    RunStore(run, |run| - 1);
    if Settled(s, id) {
      forall more | IsRun(more) && run <= more ensures !LiveDelivered(more[|more| - 1], id) {
        assert more[|run| - 1] == s;
        SettledForGood(more, |run| - 1, |more| - 1, id);
      }
    } else if r :| Holder(s, r, id) && !Lost(s, id, s.requests[r].start) {
      var more := NotLostDelivers(run, r, id);
    } else {
      var more := StillOpen(run, id);
    }
  }

  /** For a reservation marked closed: exactly when a start had passed the store's last gate and its
      token is not gone. */
  lemma CloseMissesExactly(run: seq<State>, id: ID)
    requires IsRun(run) && id in run[|run| - 1].marked
    ensures var s := run[|run| - 1];
      CanEndLive(run, id) <==> exists r :: Holder(s, r, id) && ThroughAndLive(s, s.requests[r].start)
  {
    hide Next, CanEndLive, Settled, ThroughAndLive, HolderOk, CloserOk, EntryOk, Once;
    RunInv(run, |run| - 1);
    LiveExactly(run, id);
    WhatTheMarkLeaves(run, id);
  }

  // ----- a run that shows it -----

  /** One start and one close of the same reservation, the start just through the store's last gate. */
  function JustStarted(id: ID, key: Key): State {
    State(map[id := Entry(key, None, true, false, 1)], map[0 := Lease(id, true, false, false)], map[id := 0],
          map[0 := StartRequest(id, key, Installing(0)), 1 := CloseRequest(id, key, Matching)],
          {id}, {}, [], [], map[id := Running])
  }

  function JustClaimed(id: ID, key: Key): State {
    State(map[id := Entry(key, None, true, false, 1)], map[], map[],
          map[0 := StartRequest(id, key, Activating), 1 := CloseRequest(id, key, Matching)],
          {id}, {}, [], [], map[id := Reserved])
  }

  function JustArrived(id: ID, key: Key): State {
    JustClaimed(id, key).(
      entries := map[id := Entry(key, None, false, false, 1)],
      requests := map[0 := StartRequest(id, key, Claiming), 1 := CloseRequest(id, key, Matching)])
  }

  function JustBegun(id: ID, key: Key): State {
    JustArrived(id, key).(requests := map[0 := StartRequest(id, key, Claiming)])
  }

  lemma ReachBegun(id: ID, key: Key) returns (run: seq<State>)
    ensures IsRun(run) && run[|run| - 1] == JustBegun(id, key)
  {
    hide DoStart, CanStart, DoClose, CanClose, Next;
    var s1 := JustBegun(id, key).(requests := map[]);
    assert s1 == Do(EMPTY, Begin(id, key, 1));
    RunGrows([EMPTY], Begin(id, key, 1));
    assert JustBegun(id, key) == Do(s1, Arrive(0, StartRequest(id, key, Claiming)));
    RunGrows([EMPTY] + [s1], Arrive(0, StartRequest(id, key, Claiming)));
    run := [EMPTY] + [s1] + [JustBegun(id, key)];
  }

  lemma ReachArrived(id: ID, key: Key) returns (run: seq<State>)
    ensures IsRun(run) && run[|run| - 1] == JustArrived(id, key)
  {
    hide DoStart, CanStart, DoClose, CanClose, Next;
    var early := ReachBegun(id, key);
    assert JustArrived(id, key) == Do(JustBegun(id, key), Arrive(1, CloseRequest(id, key, Matching)));
    RunGrows(early, Arrive(1, CloseRequest(id, key, Matching)));
    run := early + [JustArrived(id, key)];
  }

  lemma ReachClaimed(id: ID, key: Key) returns (run: seq<State>)
    ensures IsRun(run) && run[|run| - 1] == JustClaimed(id, key)
  {
    hide DoOther, CanOther, DoClose, CanClose, Next;
    var early := ReachArrived(id, key);
    var s := JustArrived(id, key);
    assert JustClaimed(id, key) == Do(s, Claim(0));
    RunGrows(early, Claim(0));
    run := early + [JustClaimed(id, key)];
  }

  function JustMinting(id: ID, key: Key): State {
    At(JustClaimed(id, key).(store := map[id := Stage.Minting]), 0, StartPhase.Minting)
  }

  lemma ReachMinting(id: ID, key: Key) returns (run: seq<State>)
    ensures IsRun(run) && run[|run| - 1] == JustMinting(id, key)
  {
    hide DoOther, CanOther, DoClose, CanClose, Next;
    var early := ReachClaimed(id, key);
    assert JustMinting(id, key) == Do(JustClaimed(id, key), BeginMint(0, Yes, false));
    RunGrows(early, BeginMint(0, Yes, false));
    run := early + [JustMinting(id, key)];
  }

  lemma ReachStarted(id: ID, key: Key) returns (run: seq<State>)
    ensures IsRun(run) && run[|run| - 1] == JustStarted(id, key)
  {
    hide DoOther, CanOther, DoClose, CanClose, Next;
    var early := ReachMinting(id, key);
    var s := JustMinting(id, key);
    var s1 := At(s.(store := map[id := Active], leases := map[0 := Lease(id, true, false, false)], active := map[id := 0]), 0, Starting(0));
    assert s1 == Do(s, Activate(0, 0, Yes, false));
    RunGrows(early, Activate(0, 0, Yes, false));
    assert JustStarted(id, key) == Do(s1, Start(0, Yes));
    RunGrows(early + [s1], Start(0, Yes));
    run := early + [s1] + [JustStarted(id, key)];
  }

  /** The close looks before the lease is installed, and goes through. */
  lemma CloseUnseen(early: seq<State>, id: ID, key: Key) returns (run: seq<State>)
    requires IsRun(early) && early[|early| - 1] == JustStarted(id, key)
    ensures IsRun(run) && 0 in run[|run| - 1].requests && 1 in run[|run| - 1].requests
    ensures run[|run| - 1].requests[0] == StartRequest(id, key, Installing(0))
    ensures run[|run| - 1].requests[1] == CloseRequest(id, key, Finished(None))
    ensures run[|run| - 1].leases == map[0 := Lease(id, true, false, false)] && run[|run| - 1].store == map[id := Consumed]
  {
    hide DoStart, DoOther, CanStart, CanOther, Next;
    var s := JustStarted(id, key);
    var s1 := AtPhase(s, 1, Closing(None));
    assert Can(s, Match(1)) && s1 == Do(s, Match(1));
    RunGrows(early, Match(1));
    var s2 := AtPhase(s1.(store := map[id := Consumed]), 1, Marking(None));
    assert Can(s1, Close(1, true, true, false)) && s2 == Do(s1, Close(1, true, true, false));
    RunGrows(early + [s1], Close(1, true, true, false));
    RunGrows(early + [s1] + [s2], Mark(1));
    run := early + [s1] + [s2] + [Do(s2, Mark(1))];
  }

  /** A run in which a close has finished, having seen no lease and consumed the reservation at the
      store, and a working token is delivered all the same. */
  lemma CloseMissesAToken(id: ID, key: Key) returns (run: seq<State>)
    ensures IsRun(run) && LiveDelivered(run[|run| - 1], id)
    ensures AtClose(run[|run| - 1], 1) && run[|run| - 1].requests[1] == CloseRequest(id, key, Finished(None))
  {
    hide LiveDelivered, Next;
    var started := ReachStarted(id, key);
    var closed := CloseUnseen(started, id, key);
    run := NotLostDelivers(closed, 0, id);
  }
}
