/** One lease from claim to report: the claimed fence is saved before anything is executed, the
    executor runs beside a renewal loop, and its result is reported once or not at all. */
module Agent {
  import opened Text
  import opened FenceStore
  import opened Utf8
  import opened FenceProtocol

  datatype Lease = Lease(env: ID, fence: int)

  datatype Outcome = Outcome(succeeded: bool, failureClass: string, operation: string, digest: Bytes)

  /** How a renewal ends: an answer, a refusal as stale, or no usable answer at all. */
  datatype Answer = Answered(cancelRequested: bool) | Refused | Lost

  /** What the select loop waits for, in the order it happens. */
  datatype Signal = Tick(answer: Answer) | Result(outcome: Outcome) | ContextDone

  datatype Action =
    | Execute
    | Renew(sequence: nat, answer: Answer)
    | CancelExecutor
    | Mark
    | ExecuteReturned(outcome: Outcome)
    | CancelAck(operation: string, digest: Bytes)
    | Complete(succeeded: bool, failureClass: string, operation: string, digest: Bytes)
    | Return

  // ----- what a trace may show -----

  function AnsweredCount(t: seq<Action>): nat {
    if t == [] then 0
    else
      var a := t[|t| - 1];
      AnsweredCount(t[..|t| - 1]) + if a.Renew? && a.answer.Answered? then 1 else 0
  }

  predicate CancelWasRequested(t: seq<Action>) {
    exists i :: 0 <= i < |t| && t[i].Renew? && t[i].answer == Answered(true)
  }

  predicate WasRefused(t: seq<Action>) {
    exists i :: 0 <= i < |t| && t[i].Renew? && t[i].answer == Refused
  }

  predicate WasReported(t: seq<Action>) {
    exists i :: 0 <= i < |t| && (t[i].CancelAck? || t[i].Complete?)
  }

  predicate HasReturned(t: seq<Action>) {
    exists i :: 0 <= i < |t| && t[i].ExecuteReturned?
  }

  /** The report an outcome calls for; a failure class goes with failures only. */
  function ReportOf(o: Outcome, cancelled: bool): Action {
    if cancelled then CancelAck(o.operation, o.digest)
    else Complete(o.succeeded, if o.succeeded then "" else o.failureClass, o.operation, o.digest)
  }

  /** What each action promises about everything before it. */
  ghost predicate Allowed(past: seq<Action>, a: Action) {
    match a
    case Execute => past == []
    case Renew(sequence, _) =>
      sequence == 1 + AnsweredCount(past) && Execute in past && !HasReturned(past) && !WasRefused(past)
    case CancelExecutor => Execute in past
    case Mark => WasRefused(past)
    case ExecuteReturned(_) => Execute in past && !HasReturned(past)
    case CancelAck(_, _) =>
      && CancelWasRequested(past) && !WasRefused(past) && !WasReported(past)
      && (exists o :: ExecuteReturned(o) in past && a == ReportOf(o, true))
    case Complete(succeeded, failureClass, _, _) =>
      && !CancelWasRequested(past) && !WasRefused(past) && !WasReported(past)
      && (succeeded ==> failureClass == "")
      && (exists o :: ExecuteReturned(o) in past && a == ReportOf(o, false))
    case Return => Execute in past ==> HasReturned(past)
  }

  ghost predicate LeaseTrace(t: seq<Action>) {
    forall i :: 0 <= i < |t| ==> Allowed(t[..i], t[i])
  }

  lemma TraceSnoc(t: seq<Action>, a: Action)
    requires LeaseTrace(t) && Allowed(t, a)
    ensures LeaseTrace(t + [a])
  {
    hide Allowed;
    var t' := t + [a];
    forall i | 0 <= i < |t'| ensures Allowed(t'[..i], t'[i]) {
      assert t'[..i] == t[..i];
      if i == |t| {
        assert t[..i] == t;
      }
    }
  }

  /** Renewals all precede the result, and so any report. */
  lemma RenewedBefore(t: seq<Action>, i: nat, j: nat)
    requires LeaseTrace(t) && i < |t| && j < |t| && (t[i].CancelAck? || t[i].Complete?) && t[j].Renew?
    ensures j < i && t[j].answer != Refused
  {
    hide AnsweredCount, CancelWasRequested, WasReported, WasRefused, HasReturned;
    assert Allowed(t[..i], t[i]) && Allowed(t[..j], t[j]);
    var o :| ExecuteReturned(o) in t[..i];
    var r :| 0 <= r < i && t[r] == ExecuteReturned(o);
    InPrefix(t, r, j);
    InPrefix(t, j, i);
  }

  lemma InPrefix(t: seq<Action>, k: nat, n: nat)
    requires k < |t| && n <= |t|
    ensures k < n && t[k].ExecuteReturned? ==> HasReturned(t[..n])
    ensures k < n && (t[k].CancelAck? || t[k].Complete?) ==> WasReported(t[..n])
    ensures k < n && t[k].Renew? && t[k].answer == Refused ==> WasRefused(t[..n])
    ensures k < n && t[k].Renew? && t[k].answer == Answered(true) ==> CancelWasRequested(t[..n])
  {
    if k < n {
      assert t[..n][k] == t[k];
    }
  }

  /** Over a whole trace: one report at most, none after a refusal, and a cancellation is
      acknowledged exactly when an answered renewal asked for it. */
  lemma ReportsOnce(t: seq<Action>, i: nat)
    requires LeaseTrace(t) && i < |t| && (t[i].CancelAck? || t[i].Complete?)
    ensures forall j :: 0 <= j < |t| && (t[j].CancelAck? || t[j].Complete?) ==> j == i
    ensures t[i].CancelAck? <==> CancelWasRequested(t)
    ensures !WasRefused(t)
  {
    hide AnsweredCount, HasReturned, LeaseTrace, WasReported;
    forall j | 0 <= j < |t| && t[j].Renew? ensures j < i && t[j].answer != Refused && t[..i][j] == t[j] {
      RenewedBefore(t, i, j);
    }
    assert Allowed(t[..i], t[i]) by {
      TraceAt(t, i);
    }
    forall j | 0 <= j < |t| && (t[j].CancelAck? || t[j].Complete?) ensures j == i {
      TraceAt(t, j);
      InPrefix(t, j, i);
      InPrefix(t, i, j);
    }
    if CancelWasRequested(t[..i]) {
      var k :| 0 <= k < i && t[..i][k].Renew? && t[..i][k].answer == Answered(true);
      assert t[k] == t[..i][k];
    }
  }

  /** The first renewal has sequence number 1. */
  lemma FirstRenewal(t: seq<Action>, j: nat)
    requires LeaseTrace(t) && j < |t| && t[j].Renew? && forall k :: 0 <= k < j ==> !t[k].Renew?
    ensures t[j].sequence == 1
  {
    hide CancelWasRequested, WasReported, WasRefused, HasReturned, LeaseTrace, AnsweredCount;
    TraceAt(t, j);
    CountSame(t, 0, j);
    EmptyPast();
    assert t[..0] == [];
  }

  /** Each later one repeats the number of the one before it if that was lost, and has the next number
      if it was answered. */
  lemma LostIsRepeated(t: seq<Action>, i: nat, j: nat)
    requires LeaseTrace(t) && i < j < |t| && t[i].Renew? && t[j].Renew? && forall k :: i < k < j ==> !t[k].Renew?
    ensures t[i].answer != Refused && t[j].sequence == t[i].sequence + if t[i].answer == Lost then 0 else 1
  {
    hide CancelWasRequested, WasReported, WasRefused, HasReturned, LeaseTrace, AnsweredCount;
    TraceAt(t, i);
    TraceAt(t, j);
    InPrefix(t, i, j);
    CountSame(t, i + 1, j);
    CountNext(t, i);
  }

  lemma CountNext(t: seq<Action>, i: nat)
    requires i < |t|
    ensures AnsweredCount(t[..i + 1]) == AnsweredCount(t[..i]) + if t[i].Renew? && t[i].answer.Answered? then 1 else 0
  {
    assert t[..i + 1][..i] == t[..i];
  }

  lemma {:induction false} CountSame(t: seq<Action>, i: nat, j: nat)
    requires i <= j <= |t| && forall k :: i <= k < j ==> !t[k].Renew?
    ensures AnsweredCount(t[..j]) == AnsweredCount(t[..i])
    decreases j
  {
    hide AnsweredCount;
    if i < j {
      CountSame(t, i, j - 1);
      CountNext(t, j - 1);
    }
  }

  /** The executor had returned this before. */
  ghost predicate CameBack(t: seq<Action>, i: nat, o: Outcome) {
    exists j :: 0 <= j < i && j < |t| && t[j] == ExecuteReturned(o)
  }

  /** The report repeats what the executor returned: success as success, failure as failure with its
      class, and in either case the operation and the digest. */
  predicate Repeats(a: Action, o: Outcome) {
    match a
    case Complete(succeeded, failureClass, operation, digest) =>
      && succeeded == o.succeeded && operation == o.operation && digest == o.digest
      && (o.succeeded ==> failureClass == "") && (!o.succeeded ==> failureClass == o.failureClass)
    case CancelAck(operation, digest) => operation == o.operation && digest == o.digest
    case _ => false
  }

  /** Every report of a trace repeats the one outcome the executor returned before it. */
  lemma ReportsTheOutcome(t: seq<Action>, i: nat) returns (o: Outcome)
    requires LeaseTrace(t) && i < |t| && (t[i].CancelAck? || t[i].Complete?)
    ensures CameBack(t, i, o) && Repeats(t[i], o)
    ensures forall p, j: nat :: j < |t| && t[j] == ExecuteReturned(p) ==> p == o
  {
    hide AnsweredCount, CancelWasRequested, WasReported, WasRefused;
    assert Allowed(t[..i], t[i]);
    o :| ExecuteReturned(o) in t[..i] && t[i] == ReportOf(o, t[i].CancelAck?);
    var k :| 0 <= k < i && t[k] == ExecuteReturned(o);
    forall p, j: nat | j < |t| && t[j] == ExecuteReturned(p) ensures j == k {
      assert Allowed(t[..j], t[j]) && Allowed(t[..k], t[k]);
      InPrefix(t, j, k);
      InPrefix(t, k, j);
    }
  }

  lemma TraceAt(t: seq<Action>, i: nat)
    requires LeaseTrace(t) && i < |t|
    ensures Allowed(t[..i], t[i])
  {
  }

  lemma EmptyPast()
    ensures AnsweredCount([]) == 0 && !CancelWasRequested([]) && !WasRefused([]) && !WasReported([]) && !HasReturned([])
    ensures LeaseTrace([])
  {
    hide Allowed;
  }

  lemma CancelSnoc(t: seq<Action>, a: Action)
    ensures CancelWasRequested(t + [a]) <==> CancelWasRequested(t) || (a.Renew? && a.answer == Answered(true))
  {
    var t' := t + [a];
    assert t'[|t|] == a && forall i :: 0 <= i < |t| ==> t'[i] == t[i];
  }

  lemma RefusedSnoc(t: seq<Action>, a: Action)
    ensures WasRefused(t + [a]) <==> WasRefused(t) || (a.Renew? && a.answer == Refused)
  {
    var t' := t + [a];
    assert t'[|t|] == a && forall i :: 0 <= i < |t| ==> t'[i] == t[i];
  }

  lemma ReportedSnoc(t: seq<Action>, a: Action)
    ensures WasReported(t + [a]) <==> WasReported(t) || a.CancelAck? || a.Complete?
  {
    var t' := t + [a];
    assert t'[|t|] == a && forall i :: 0 <= i < |t| ==> t'[i] == t[i];
  }

  lemma ReturnedSnoc(t: seq<Action>, a: Action)
    ensures HasReturned(t + [a]) <==> HasReturned(t) || a.ExecuteReturned?
  {
    var t' := t + [a];
    assert t'[|t|] == a && forall i :: 0 <= i < |t| ==> t'[i] == t[i];
  }

  /** One more action, seen from each side. */
  lemma PastSnoc(t: seq<Action>, a: Action)
    ensures AnsweredCount(t + [a]) == AnsweredCount(t) + if a.Renew? && a.answer.Answered? then 1 else 0
    ensures CancelWasRequested(t + [a]) <==> CancelWasRequested(t) || (a.Renew? && a.answer == Answered(true))
    ensures WasRefused(t + [a]) <==> WasRefused(t) || (a.Renew? && a.answer == Refused)
    ensures WasReported(t + [a]) <==> WasReported(t) || a.CancelAck? || a.Complete?
    ensures HasReturned(t + [a]) <==> HasReturned(t) || a.ExecuteReturned?
  {
    hide CancelWasRequested, WasRefused, WasReported, HasReturned;
    assert (t + [a])[..|t|] == t;
    CancelSnoc(t, a);
    RefusedSnoc(t, a);
    ReportedSnoc(t, a);
    ReturnedSnoc(t, a);
  }

  /** The loop's view of the past: executor running, nothing refused, nothing reported. */
  ghost predicate InLoop(t: seq<Action>, sequence: nat, cancelled: bool) {
    && LeaseTrace(t) && Execute in t && !HasReturned(t) && !WasRefused(t) && !WasReported(t)
    && sequence == AnsweredCount(t) && cancelled == CancelWasRequested(t)
  }

  /** Waiting for an executor that has been cancelled, with nothing left to report. */
  ghost predicate Waiting(t: seq<Action>) {
    LeaseTrace(t) && Execute in t && !HasReturned(t)
  }

  lemma StartTrace()
    ensures InLoop([Execute], 0, false)
  {
    hide CancelWasRequested, WasRefused, WasReported, HasReturned, LeaseTrace, AnsweredCount;
    EmptyPast();
    PastSnoc([], Execute);
    TraceSnoc([], Execute);
    assert [] + [Execute] == [Execute];
  }

  /** One renewal: the sequence number is consumed only by an answer. */
  lemma RenewStep(t: seq<Action>, sequence: nat, cancelled: bool, answer: Answer)
    requires InLoop(t, sequence, cancelled)
    ensures var t' := t + [Renew(sequence + 1, answer)];
      if answer.Refused? then Waiting(t') && WasRefused(t')
      else InLoop(t', if answer.Answered? then sequence + 1 else sequence, cancelled || answer == Answered(true))
  {
    hide CancelWasRequested, WasRefused, WasReported, HasReturned, LeaseTrace, AnsweredCount;
    PastSnoc(t, Renew(sequence + 1, answer));
    TraceSnoc(t, Renew(sequence + 1, answer));
  }

  lemma LoopWaits(t: seq<Action>, sequence: nat, cancelled: bool)
    requires InLoop(t, sequence, cancelled)
    ensures Waiting(t) && LeaseTrace(t) && Execute in t
  {
    hide LeaseTrace, Allowed;
  }

  lemma CancelStep(t: seq<Action>, sequence: nat, cancelled: bool)
    requires InLoop(t, sequence, cancelled)
    ensures InLoop(t + [CancelExecutor], sequence, cancelled)
  {
    hide CancelWasRequested, WasRefused, WasReported, HasReturned, LeaseTrace, AnsweredCount;
    PastSnoc(t, CancelExecutor);
    TraceSnoc(t, CancelExecutor);
  }

  lemma WaitStep(t: seq<Action>, a: Action)
    requires Waiting(t) && (a.CancelExecutor? || (a.Mark? && WasRefused(t)))
    ensures Waiting(t + [a]) && (WasRefused(t) ==> WasRefused(t + [a]))
  {
    hide CancelWasRequested, WasRefused, WasReported, HasReturned, LeaseTrace, AnsweredCount;
    PastSnoc(t, a);
    TraceSnoc(t, a);
  }

  lemma LastSteps(t: seq<Action>, o: Outcome)
    requires Waiting(t)
    ensures LeaseTrace(t + [ExecuteReturned(o), Return])
  {
    hide CancelWasRequested, WasRefused, WasReported, HasReturned, LeaseTrace, AnsweredCount;
    var u := t + [ExecuteReturned(o)];
    PastSnoc(t, ExecuteReturned(o));
    TraceSnoc(t, ExecuteReturned(o));
    TraceSnoc(u, Return);
    assert u + [Return] == t + [ExecuteReturned(o), Return];
  }

  lemma ReportSteps(t: seq<Action>, sequence: nat, cancelled: bool, o: Outcome)
    requires InLoop(t, sequence, cancelled)
    ensures LeaseTrace(t + [ExecuteReturned(o), CancelExecutor, ReportOf(o, cancelled), Return])
  {
    hide CancelWasRequested, WasRefused, WasReported, HasReturned, LeaseTrace, AnsweredCount;
    var a, b, c := ExecuteReturned(o), CancelExecutor, ReportOf(o, cancelled);
    var t1 := t + [a];
    PastSnoc(t, a);
    TraceSnoc(t, a);
    var t2 := t1 + [b];
    PastSnoc(t1, b);
    TraceSnoc(t1, b);
    assert a in t1 && a in t2;
    var t3 := t2 + [c];
    PastSnoc(t2, c);
    TraceSnoc(t2, c);
    TraceSnoc(t3, Return);
    assert t3 + [Return] == t + [a, b, c, Return];
  }

  lemma RefusedLease()
    ensures LeaseTrace([Return])
  {
    EmptyPast();
    TraceSnoc([], Return);
    assert [] + [Return] == [Return];
  }

  // ----- the loop as a function of its signals -----

  /** What follows once only the executor is waited for. */
  function Await(ss: seq<Signal>): seq<Action> {
    if ss == [] then []
    else if ss[0].Result? then [ExecuteReturned(ss[0].outcome), Return]
    else Await(ss[1..])
  }

  /** What the select loop does with the signals still to come. */
  function Script(ss: seq<Signal>, sequence: nat, cancelled: bool): seq<Action> {
    if ss == [] then []
    else
      match ss[0]
      case Result(o) => [ExecuteReturned(o), CancelExecutor, ReportOf(o, cancelled), Return]
      case ContextDone => [CancelExecutor] + Await(ss[1..])
      case Tick(answer) =>
        [Renew(sequence + 1, answer)] +
        match answer
        case Refused => [CancelExecutor, Mark] + Await(ss[1..])
        case Lost => Script(ss[1..], sequence, cancelled)
        case Answered(true) =>
          (if cancelled then [] else [CancelExecutor]) + Script(ss[1..], sequence + 1, true)
        case Answered(false) => Script(ss[1..], sequence + 1, cancelled)
  }

  lemma {:induction false} AwaitObeys(t: seq<Action>, ss: seq<Signal>)
    requires Waiting(t)
    ensures LeaseTrace(t + Await(ss))
  {
    hide LeaseTrace;
    if ss == [] {
      assert t + [] == t;
    } else if ss[0].Result? {
      LastSteps(t, ss[0].outcome);
    } else {
      AwaitObeys(t, ss[1..]);
    }
  }

  /** For every sequence of signals the loop obeys the rules of a lease. */
  lemma {:induction false} ScriptObeys(t: seq<Action>, ss: seq<Signal>, sequence: nat, cancelled: bool)
    requires InLoop(t, sequence, cancelled)
    ensures LeaseTrace(t + Script(ss, sequence, cancelled))
    decreases |ss|, 1
  {
    hide LeaseTrace, InLoop, Waiting, WasRefused, AnsweredCount;
    LoopWaits(t, sequence, cancelled);
    if ss == [] {
      assert t + [] == t;
    } else {
      match ss[0] {
        case Result(o) => ReportSteps(t, sequence, cancelled, o);
        case ContextDone =>
          WaitStep(t, CancelExecutor);
          AwaitObeys(t + [CancelExecutor], ss[1..]);
          assert t + ([CancelExecutor] + Await(ss[1..])) == t + [CancelExecutor] + Await(ss[1..]);
        case Tick(answer) => TickObeys(t, ss, sequence, cancelled, answer);
      }
    }
  }

  lemma TickObeys(t: seq<Action>, ss: seq<Signal>, sequence: nat, cancelled: bool, answer: Answer)
    requires InLoop(t, sequence, cancelled) && ss != [] && ss[0] == Tick(answer)
    ensures LeaseTrace(t + Script(ss, sequence, cancelled))
    decreases |ss|, 0
  {
    hide LeaseTrace, InLoop, Waiting, WasRefused, AnsweredCount, Script;
    RenewStep(t, sequence, cancelled, answer);
    var t1 := t + [Renew(sequence + 1, answer)];
    var rest := ss[1..];
    ScriptStep(t, ss, 0, sequence, cancelled);
    assert ss[0..] == ss;
    match answer {
      case Refused =>
        WaitStep(t1, CancelExecutor);
        WaitStep(t1 + [CancelExecutor], Mark);
        AwaitObeys(t1 + [CancelExecutor] + [Mark], rest);
      case Lost => ScriptObeys(t1, rest, sequence, cancelled);
      case Answered(c) =>
        if c && !cancelled {
          CancelStep(t1, sequence + 1, true);
          ScriptObeys(t1 + [CancelExecutor], rest, sequence + 1, true);
        } else {
          ScriptObeys(t1, rest, sequence + 1, cancelled);
        }
    }
  }

  // ----- how a lease ends -----

  /** Only renewals that were not refused. */
  predicate Calm(ss: seq<Signal>) {
    forall j :: 0 <= j < |ss| ==> ss[j].Tick? && ss[j].answer != Refused
  }

  predicate AsksToCancel(ss: seq<Signal>) {
    exists j :: 0 <= j < |ss| && ss[j] == Tick(Answered(true))
  }

  /** While nothing else happens the loop renews, and passes a request to cancel on to the executor. */
  lemma {:induction false} Renewals(calm: seq<Signal>, rest: seq<Signal>, sequence: nat, cancelled: bool)
    returns (pre: seq<Action>, sequence': nat)
    requires Calm(calm)
    ensures Script(calm + rest, sequence, cancelled) == pre + Script(rest, sequence', cancelled || AsksToCancel(calm))
    ensures |calm| <= |pre| && forall a :: a in pre ==> a.Renew? || a.CancelExecutor?
    ensures CancelExecutor in pre <==> !cancelled && AsksToCancel(calm)
  {
    hide Script, AsksToCancel;
    if calm == [] {
      pre, sequence' := [], sequence;
      assert calm + rest == rest && !AsksToCancel(calm) by { NothingAsked(calm); }
    } else {
      var answer := calm[0].answer;
      var asked := answer == Answered(true);
      AsksFirst(calm);
      var next := if answer.Answered? then sequence + 1 else sequence;
      var first := [Renew(sequence + 1, answer)] + if asked && !cancelled then [CancelExecutor] else [];
      CalmStep(calm, rest, sequence, cancelled);
      var more;
      more, sequence' := Renewals(calm[1..], rest, next, cancelled || asked);
      pre := first + more;
    }
  }

  lemma NothingAsked(ss: seq<Signal>)
    requires ss == []
    ensures !AsksToCancel(ss)
  {
  }

  /** One renewal that was not refused. */
  lemma CalmStep(calm: seq<Signal>, rest: seq<Signal>, sequence: nat, cancelled: bool)
    requires calm != [] && calm[0].Tick? && calm[0].answer != Refused
    ensures var answer := calm[0].answer;
      var asked := answer == Answered(true);
      Script(calm + rest, sequence, cancelled) ==
        [Renew(sequence + 1, answer)] + (if asked && !cancelled then [CancelExecutor] else [])
        + Script(calm[1..] + rest, if answer.Answered? then sequence + 1 else sequence, cancelled || asked)
  {
    assert (calm + rest)[1..] == calm[1..] + rest;
  }

  lemma AsksFirst(ss: seq<Signal>)
    requires ss != []
    ensures AsksToCancel(ss) <==> ss[0] == Tick(Answered(true)) || AsksToCancel(ss[1..])
  {
    if AsksToCancel(ss) && ss[0] != Tick(Answered(true)) {
      var j :| 0 <= j < |ss| && ss[j] == Tick(Answered(true));
      assert ss[1..][j - 1] == ss[j];
    }
    if AsksToCancel(ss[1..]) {
      var j :| 0 <= j < |ss[1..]| && ss[1..][j] == Tick(Answered(true));
      assert ss[j + 1] == ss[1..][j];
    }
  }

  /** A result that comes before any refusal and before the end of the context is always reported, as
      a cancellation exactly when one was asked for. */
  lemma ResultIsReported(calm: seq<Signal>, o: Outcome, rest: seq<Signal>) returns (pre: seq<Action>, report: Action)
    requires Calm(calm)
    ensures Script(calm + [Result(o)] + rest, 0, false) == pre + [ExecuteReturned(o), CancelExecutor, report, Return]
    ensures Repeats(report, o) && (report.CancelAck? <==> AsksToCancel(calm))
    ensures forall a :: a in pre ==> a.Renew? || a.CancelExecutor?
  {
    var sequence;
    assert calm + [Result(o)] + rest == calm + ([Result(o)] + rest);
    pre, sequence := Renewals(calm, [Result(o)] + rest, 0, false);
    report := ReportOf(o, AsksToCancel(calm));
  }

  /** A refusal before the result stops the executor and marks the environment, and the end of the
      context stops the executor; nothing is reported after either. */
  lemma LossIsNotReported(calm: seq<Signal>, end: Signal, rest: seq<Signal>) returns (pre: seq<Action>, post: seq<Action>)
    requires Calm(calm) && (end == Tick(Refused) || end == ContextDone)
    ensures Script(calm + [end] + rest, 0, false) == pre + post && forall a :: a in pre ==> a.Renew? || a.CancelExecutor?
    ensures CancelExecutor in post && (Mark in post <==> end == Tick(Refused))
    ensures forall a :: a in post ==> !a.Complete? && !a.CancelAck?
    ensures Return in post <==> exists j :: 0 <= j < |rest| && rest[j].Result?
  {
    var sequence;
    assert calm + [end] + rest == calm + ([end] + rest);
    assert ([end] + rest)[1..] == rest;
    pre, sequence := Renewals(calm, [end] + rest, 0, false);
    post := Script([end] + rest, sequence, AsksToCancel(calm));
    AwaitReturns(rest);
  }

  lemma {:induction false} AwaitReturns(ss: seq<Signal>)
    ensures Return in Await(ss) <==> exists j :: 0 <= j < |ss| && ss[j].Result?
    ensures forall a :: a in Await(ss) ==> a.ExecuteReturned? || a.Return?
  {
    if ss != [] {
      AwaitReturns(ss[1..]);
      if j :| 0 <= j < |ss| && ss[j].Result? && j > 0 {
        assert ss[1..][j - 1] == ss[j];
      }
    }
  }

  lemma AcceptableLater(d: Dir, f: Fence, next: int)
    requires ValidFence(f) && Load(d, f.env).Loaded?
    ensures ReadIndex(d).Trusted? && (Acceptable(WithIndex(WithFence(d, f), f.env), f.env, next) <==> !f.reconcile && next > f.highest)
  {
    hide ReadIndex, ValidUtf8, FileName, WithFence, WithIndex, Acceptable;
    NextAcceptable(d, f, next);
  }

  class Agent {
    const store: Store
    ghost var state: State
    ghost var run: seq<State>

    constructor (store: Store)
      requires store.dir == map[]
      ensures this.store == store && Valid() && state.phase.Idle? && state.history == []
    {
      this.store := store;
      state := State(map[], Idle, [], map[]);
      run := [State(map[], Idle, [], map[])];
    }

    ghost predicate Valid()
      reads this, store
    {
      IsRun(run) && run[|run| - 1] == state && state.dir == store.dir
    }

    /** Records one step of the protocol. */
    ghost method Log(t: Step)
      requires IsRun(run) && run[|run| - 1] == state && Can(state, t)
      modifies this`state, this`run
      ensures IsRun(run) && run[|run| - 1] == state
      ensures state == Do(old(state), t) && run == old(run) + [state]
    {
      hide Can, Do;
      ghost var before := run;
      state := Do(state, t);
      run := run + [state];
      forall i | 0 <= i < |run| - 1 ensures Next(run[i], run[i + 1]) {
        if i < |before| - 1 {
          assert Next(before[i], before[i + 1]);
        }
      }
    }

    /** Saves a fence inside the phase that announced it. */
    method Save(f: Fence) returns (ok: bool)
      requires Valid() && ValidFence(f) && state.phase.Writing? && state.phase.fence == f
      modifies this`state, this`run, store
      ensures old(store.faults) <= store.faults
      ensures Valid() && old(run) <= run
      ensures state.phase == After(f, old(state).phase.run, ok)
      ensures old(state).phase.run ==>
        state.history == old(state).history + if ok then [Started(f.env, f.highest)] else []
      ensures !old(state).phase.run ==> old(state).history <= state.history
      ensures store.dir in {old(store.dir), WithFence(old(store.dir), f), WithIndex(WithFence(old(store.dir), f), f.env)}
      ensures ok ==> store.dir == WithIndex(WithFence(old(store.dir), f), f.env)
      ensures store.faults == old(store.faults) ==> ok
    {
      hide IsRun, ValidFence, WithFence, WithIndex;
      ghost var d := store.dir;
      ok := store.Save(f);
      if store.dir == d && !ok {
        Log(Abandon);
      } else {
        Log(WriteFence);
        if !ok && store.dir == WithFence(d, f) {
          Log(Abandon);
        } else {
          Log(WriteIndex(ok));
        }
      }
    }

    /** Sets the durable flag without touching the fence. */
    method MarkReconciliationRequired(env: ID)
      requires Valid() && state.phase == Running(env)
      modifies this`state, this`run, store
      ensures old(store.faults) <= store.faults
      ensures Valid() && old(run) <= run && state.phase == Running(env) && old(state).history <= state.history
      ensures match old(Load(store.dir, env))
        case Loaded(stored, _) =>
          var f := Fence(env, stored.highest, true);
          && store.dir in {old(store.dir), WithFence(old(store.dir), f), WithIndex(WithFence(old(store.dir), f), env)}
          && (store.faults == old(store.faults) ==> store.dir == WithIndex(WithFence(old(store.dir), f), env))
          && (store.faults == old(store.faults) ==> forall next :: !Acceptable(store.dir, env, next))
        case _ => store.dir == old(store.dir)
    {
      hide IsRun, ReadIndex, ValidUtf8, FileName, WithFence, WithIndex;
      var r := store.LoadFence(env);
      if r.Loaded? {
        Log(Stale);
        ghost var before := store.dir;
        var f := r.fence.(env := env, reconcile := true);
        var _ := Save(f);
        forall next ensures store.dir == WithIndex(WithFence(before, f), env) ==> !Acceptable(store.dir, env, next) {
          AcceptableLater(before, f, next);
        }
      }
    }

    /** Accepts the lease: the fence is durable before the executor starts. */
    method Begin(lease: Lease) returns (ok: bool)
      requires Valid() && state.phase.Idle?
      modifies this`state, this`run, store
      ensures old(store.faults) <= store.faults
      ensures Valid() && old(run) <= run
      ensures ok ==> old(Acceptable(store.dir, lease.env, lease.fence)) && state.phase == Running(lease.env)
      ensures state.history == old(state).history + if ok then [Started(lease.env, lease.fence)] else []
      ensures !ok ==> state.phase.Idle?
      ensures store.faults == old(store.faults) ==> (ok <==> old(Acceptable(store.dir, lease.env, lease.fence)))
      ensures ok ==> Load(store.dir, lease.env).Loaded? && forall next :: Acceptable(store.dir, lease.env, next) <==> next > lease.fence
    {
      hide IsRun, ReadIndex, ValidUtf8, FileName;
      var r := store.LoadFence(lease.env);
      if !r.Loaded? {
        return false;
      }
      if r.existed && (r.fence.reconcile || lease.fence <= r.fence.highest) {
        return false;
      }
      if lease.fence < 0 {
        return false;  // Save refuses an invalid fence
      }
      ghost var before := store.dir;
      Log(Accept(lease.env, lease.fence));
      var f := Fence(lease.env, lease.fence, false);
      ok := Save(f);
      if ok {
        forall next ensures Acceptable(store.dir, lease.env, next) <==> next > lease.fence {
          AcceptableLater(before, f, next);
        }
        LoadAfterSave(before, f, lease.env);
      }
    }

    ghost method Finish(trace: seq<Action>, env: ID)
      requires Valid() && state.phase == Running(env) && trace != []
      modifies this`state, this`run
      ensures Valid() && old(run) <= run && state.history == old(state).history
      ensures state.phase == if trace[|trace| - 1] == Return then Idle else Running(env)
    {
      hide IsRun;
      if trace[|trace| - 1] == Return {
        Log(Step.Finish);
      }
    }

    /** Gives up a lease: cancels the executor, marks the environment if the lease was refused, and
        still waits for the executor. */
    method Withdraw(before: seq<Action>, env: ID, signals: seq<Signal>, refused: bool) returns (trace: seq<Action>)
      requires Valid() && state.phase == Running(env) && before != []
      modifies this`state, this`run, store
      ensures old(store.faults) <= store.faults
      ensures Valid() && old(run) <= run && old(state).history <= state.history
      ensures trace == before + [CancelExecutor] + (if refused then [Mark] else []) + Await(signals)
      ensures state.phase == if trace[|trace| - 1] == Return then Idle else Running(env)
      ensures !refused ==> state.history == old(state).history && store.dir == old(store.dir)
      ensures Mark in trace <==> refused || Mark in before
      ensures refused && store.faults == old(store.faults) && old(Load(store.dir, env)).Loaded? ==>
        forall next :: !Acceptable(store.dir, env, next)
    {
      hide IsRun;
      trace := before + [CancelExecutor];
      if refused {
        MarkReconciliationRequired(env);
        trace := trace + [Mark];
      }
      trace := AwaitResult(trace, signals);
      AwaitReturns(signals);
      Finish(trace, env);
    }

    /** Runs one lease over the signals it meets. It has returned exactly when the trace ends in
        `Return`; otherwise the signals ran out first. */
    method RunLease(lease: Lease, signals: seq<Signal>) returns (trace: seq<Action>)
      requires Valid() && state.phase.Idle?
      modifies this`state, this`run, store
      ensures old(store.faults) <= store.faults
      ensures Valid() && old(run) <= run
      ensures trace == [Return] || trace == [Execute] + Script(signals, 0, false)
      ensures LeaseTrace(trace)
      ensures Execute in trace ==> old(Acceptable(store.dir, lease.env, lease.fence))
      ensures store.faults == old(store.faults) && old(Acceptable(store.dir, lease.env, lease.fence)) ==> Execute in trace
      ensures Execute in trace ==> old(state).history + [Started(lease.env, lease.fence)] <= state.history
      ensures Execute !in trace ==> state.history == old(state).history
      ensures Execute in trace && store.faults == old(store.faults) ==>
        forall next :: Acceptable(store.dir, lease.env, next) <==> Mark !in trace && next > lease.fence
      ensures state.phase == if trace[|trace| - 1] == Return then Idle else Running(lease.env)
    {
      hide IsRun, Acceptable, LeaseTrace, InLoop;
      var ok := Begin(lease);
      if !ok {
        RefusedLease();
        return [Return];
      }
      StartTrace();
      ScriptObeys([Execute], signals, 0, false);
      trace := RenewLoop(lease.env, signals);
    }

    /** The select loop beside the running executor. */
    method RenewLoop(env: ID, signals: seq<Signal>) returns (trace: seq<Action>)
      requires Valid() && state.phase == Running(env)
      modifies this`state, this`run, store
      ensures old(store.faults) <= store.faults
      ensures Valid() && old(run) <= run && old(state).history <= state.history
      ensures trace == [Execute] + Script(signals, 0, false)
      ensures Mark !in trace ==> store.dir == old(store.dir)
      ensures Mark in trace && store.faults == old(store.faults) && old(Load(store.dir, env)).Loaded? ==>
        forall next :: !Acceptable(store.dir, env, next)
      ensures state.phase == if trace[|trace| - 1] == Return then Idle else Running(env)
    {
      hide IsRun;
      trace := [Execute];
      var sequence, cancelled, i := 0, false, 0;
      assert signals[0..] == signals;
      while i < |signals|
        invariant 0 <= i <= |signals| && trace != [] && trace[|trace| - 1] != Return
        invariant [Execute] + Script(signals, 0, false) == trace + Script(signals[i..], sequence, cancelled)
        invariant Valid() && old(run) <= run && state.phase == Running(env) && state.history == old(state).history
        invariant store.dir == old(store.dir) && store.faults == old(store.faults) && Mark !in trace
      {
        ScriptStep(trace, signals, i, sequence, cancelled);
        match signals[i] {
          case Result(outcome) =>
            trace := trace + [ExecuteReturned(outcome), CancelExecutor, ReportOf(outcome, cancelled), Return];
            Finish(trace, env);
            return;
          case Tick(answer) =>
            trace := trace + [Renew(sequence + 1, answer)];
            match answer {
              case Refused =>
                trace := Withdraw(trace, env, signals[i + 1..], true);
                return;
              case Lost =>
              case Answered(cancelRequested) =>
                sequence := sequence + 1;
                if cancelRequested && !cancelled {
                  cancelled := true;
                  trace := trace + [CancelExecutor];
                }
            }
          case ContextDone =>
            trace := Withdraw(trace, env, signals[i + 1..], false);
            return;
        }
        i := i + 1;
      }
      assert trace + [] == trace;
    }
  }

  /** The script from one signal on, written as the loop extends its trace. */
  lemma ScriptStep(t: seq<Action>, ss: seq<Signal>, i: nat, sequence: nat, cancelled: bool)
    requires i < |ss|
    ensures var rest := ss[i + 1..];
      t + Script(ss[i..], sequence, cancelled) ==
      match ss[i]
      case Result(o) => t + [ExecuteReturned(o), CancelExecutor, ReportOf(o, cancelled), Return]
      case ContextDone => t + [CancelExecutor] + [] + Await(rest)
      case Tick(Refused) => t + [Renew(sequence + 1, Refused)] + [CancelExecutor] + [Mark] + Await(rest)
      case Tick(Lost) => t + [Renew(sequence + 1, Lost)] + Script(rest, sequence, cancelled)
      case Tick(Answered(c)) =>
        if c && !cancelled then t + [Renew(sequence + 1, Answered(c))] + [CancelExecutor] + Script(rest, sequence + 1, true)
        else t + [Renew(sequence + 1, Answered(c))] + Script(rest, sequence + 1, cancelled)
  {
    hide Await, ReportOf;
    assert ss[i..][0] == ss[i] && ss[i..][1..] == ss[i + 1..];
    var rest := ss[i + 1..];
    match ss[i] {
      case Result(o) =>
      case ContextDone => Append(t, CancelExecutor, [], Await(rest));
      case Tick(answer) =>
        var a := Renew(sequence + 1, answer);
        match answer {
          case Refused =>
            Append(t, a, [CancelExecutor, Mark], Await(rest));
            assert t + [a] + [CancelExecutor, Mark] == t + [a] + [CancelExecutor] + [Mark];
          case Lost => Append(t, a, [], Script(rest, sequence, cancelled));
          case Answered(c) =>
            if c && !cancelled {
              Append(t, a, [CancelExecutor], Script(rest, sequence + 1, true));
            } else {
              Append(t, a, [], Script(rest, sequence + 1, cancelled));
            }
        }
    }
  }

  lemma Append(t: seq<Action>, a: Action, middle: seq<Action>, rest: seq<Action>)
    ensures t + ([a] + (middle + rest)) == t + [a] + middle + rest
    ensures middle == [] ==> middle + rest == rest && t + [a] + middle == t + [a]
  {
  }

  /** Blocks until the cancelled executor returns, ignoring every other signal. */
  method AwaitResult(before: seq<Action>, signals: seq<Signal>) returns (trace: seq<Action>)
    ensures trace == before + Await(signals)
  {
    var i := 0;
    assert signals[0..] == signals;
    while i < |signals| && !signals[i].Result?
      invariant 0 <= i <= |signals| && Await(signals) == Await(signals[i..])
    {
      assert signals[i..][1..] == signals[i + 1..];
      i := i + 1;
    }
    trace := before + if i < |signals| then [ExecuteReturned(signals[i].outcome), Return] else [];
  }
}
