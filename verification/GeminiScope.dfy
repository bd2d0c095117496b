/** The Gemini request scope: a one-shot owner leases a credential, callers share one
    single-flight gateway, and cleanup revokes the gateway, drains the call in flight
    and only then exits the lease. A step is the code between two awaits; a run is any
    interleaving of steps. The scope is used through `async with`: the owner exits only
    what it entered, and nobody cancels the internal cleanup task. */
module GeminiScope {
  import opened Common

  /** Task 0 is the owner. */
  type TaskId = nat

  const OWNER: TaskId := 0

  /** What `_ScopedGateway` holds; callers keep a reference to it. */
  datatype Gateway = Gateway(available: bool, running: Option<TaskId>)

  datatype Result_ = Returned | RaisedCancelled | RaisedFailure | ReRaised

  datatype Owner =
    | NotStarted
    | Acquiring                                   // awaiting lease.__aenter__
    | Inside                                      // the body of the async with
    | Cleaning(primary: bool, cancelled: bool)    // awaiting the shielded cleanup
    | Gone(result: Result_)

  datatype Cleanup =
    | NoCleanup
    | Scheduled(gateway: bool, lease: bool)       // created, not yet run
    | Draining(task: TaskId, lease: bool)         // awaiting the cancelled caller
    | Releasing                                   // awaiting lease.__aexit__
    | Done(failure: bool)

  datatype Lease = Unleased | Held | Exiting | Released

  /** A task is inside `generate`, outside it, or finished for good. */
  datatype Activity = Free | InCall | Finished

  datatype Scope = Scope(
    entered: bool,
    closed: bool,
    leaseField: bool,        // `_lease` is set
    gatewayField: bool,      // `_gateway` is set
    gateway: Option<Gateway>,
    lease: Lease,
    owner: Owner,
    cleanup: Cleanup,
    tasks: map<TaskId, Activity>)

  const INITIAL := Scope(false, false, false, false, None, Unleased, NotStarted, NoCleanup, map[])

  function ActivityOf(s: Scope, t: TaskId): Activity {
    if t in s.tasks then s.tasks[t] else Free
  }

  /** How `__aenter__` resumes. */
  datatype Acquisition =
    | Opened                                      // lease entered, composition returned
    | LeaseFailed                                 // lease.__aenter__ raised or the owner was cancelled in it
    | Rejected(gatewaySet: bool)                  // lease entered, then credential or composition failed

  datatype Step =
    | Enter
    | Acquire(how: Acquisition)
    | CallStarts(task: TaskId)
    | CallEnds(task: TaskId)
    | TaskFinishes(task: TaskId)
    | Exit(primary: bool)
    | CancelOwner
    | CleanupRuns
    | Drained
    | LeaseExits(raised: bool)
    | OwnerResumes

  /** The scope after `_cleanup` created its task. */
  function Close(s: Scope, primary: bool): Scope {
    s.(closed := true, gatewayField := false, leaseField := false,
    cleanup := Scheduled(s.gatewayField, s.leaseField),
    owner := Cleaning(primary, false))
  }

  /** The release continues with the lease, if there is one. */
  function Release(s: Scope, lease: bool): Scope {
    if lease then s.(cleanup := Releasing, lease := Exiting) else s.(cleanup := Done(false))
  }

  /** The step's effect, or nothing when it cannot happen now. A refused call or a second
      entry raises without changing anything, so it is no step. */
  function Next(s: Scope, step: Step): Option<Scope> {
    match step
    case Enter =>
      if s.owner.NotStarted? && !s.entered && !s.closed
      then Some(s.(entered := true, owner := Acquiring)) else None
    case Acquire(how) =>
      if !s.owner.Acquiring? then None
      else (
        match how
        case Opened =>
          Some(s.(lease := Held, leaseField := true, gatewayField := true,
               gateway := Some(Gateway(true, None)), owner := Inside))
        case LeaseFailed => Some(Close(s, true))
        case Rejected(gatewaySet) =>
          Some(Close(s.(lease := Held, leaseField := true, gatewayField := gatewaySet,
                     gateway := if gatewaySet then Some(Gateway(true, None)) else None), true)))
    case CallStarts(t) =>
      if && s.gateway.Some? && s.gateway.value.available && s.gateway.value.running.None?
         && ActivityOf(s, t).Free? && (t == OWNER ==> s.owner.Inside?)
      then Some(s.(gateway := Some(s.gateway.value.(running := Some(t))), tasks := s.tasks[t := InCall]))
      else None
    case CallEnds(t) =>
      if ActivityOf(s, t).InCall? && s.gateway.Some?
      then Some(s.(gateway := Some(s.gateway.value.(running := None)), tasks := s.tasks[t := Free]))
      else None
    case TaskFinishes(t) =>
      if t != OWNER && ActivityOf(s, t).Free? then Some(s.(tasks := s.tasks[t := Finished])) else None
    case Exit(primary) =>
      if s.owner.Inside? && !ActivityOf(s, OWNER).InCall? && s.entered && !s.closed
      then Some(Close(s, primary)) else None
    case CancelOwner =>
      if s.owner.Cleaning? then Some(s.(owner := s.owner.(cancelled := true))) else None
    case CleanupRuns =>
      if !s.cleanup.Scheduled? then None
      else if !s.cleanup.gateway || s.gateway.None? then Some(Release(s, s.cleanup.lease))
      else
        var revoked := s.(gateway := Some(s.gateway.value.(available := false)));
        if s.gateway.value.running.Some?
        then Some(revoked.(cleanup := Draining(s.gateway.value.running.value, s.cleanup.lease)))
        else Some(Release(revoked, s.cleanup.lease))
    case Drained =>
      if s.cleanup.Draining? && ActivityOf(s, s.cleanup.task).Finished? && s.gateway.Some?
      then Some(Release(s.(gateway := Some(s.gateway.value.(running := None))), s.cleanup.lease))
      else None
    case LeaseExits(raised) =>
      if s.cleanup.Releasing? then Some(s.(cleanup := Done(raised), lease := Released)) else None
    case OwnerResumes =>
      if s.owner.Cleaning? && s.cleanup.Done?
      then Some(s.(owner := Gone(
                  if s.owner.primary then ReRaised
                  else if s.owner.cancelled then RaisedCancelled
                  else if s.cleanup.failure then RaisedFailure
                  else Returned)))
      else None
  }

  // ---- runs

  /** All the steps happen, one after the other. */
  ghost predicate Possible(s: Scope, steps: seq<Step>)
    decreases |steps|
  {
    steps == [] || (Next(s, steps[0]).Some? && Possible(Next(s, steps[0]).value, steps[1..]))
  }

  ghost function After(s: Scope, steps: seq<Step>): Scope
    requires Possible(s, steps)
    decreases |steps|
  {
    if steps == [] then s else After(Next(s, steps[0]).value, steps[1..])
  }

  lemma {:induction false} RunSplits(s: Scope, steps: seq<Step>, i: nat)
    requires i <= |steps| && Possible(s, steps)
    ensures Possible(s, steps[..i])
    ensures Possible(After(s, steps[..i]), steps[i..])
    ensures After(After(s, steps[..i]), steps[i..]) == After(s, steps)
    decreases |steps|
  {
    if i == 0 {
      assert steps[i..] == steps;
    } else {
      RunSplits(Next(s, steps[0]).value, steps[1..], i - 1);
      assert steps[..i][1..] == steps[1..][..i - 1] && steps[1..][i - 1..] == steps[i..];
    }
  }

  // ---- the inductive invariant

  /** Where the owner stands and what it holds. */
  ghost predicate OwnerValid(s: Scope) {
    && (s.closed <==> !s.cleanup.NoCleanup?)
    && (s.owner.Cleaning? || s.owner.Gone? <==> !s.cleanup.NoCleanup?)
    && (s.entered <==> !s.owner.NotStarted?)
    && (s.owner.NotStarted? || s.owner.Acquiring? ==>
          s.lease.Unleased? && s.gateway.None? && !s.leaseField && !s.gatewayField)
    && (s.owner.Inside? ==>
          s.entered && s.leaseField && s.gatewayField && s.lease.Held? && s.gateway.Some?
          && s.gateway.value.available)
    && (s.owner.Gone? ==> s.cleanup.Done?)
    && (s.closed ==> !s.leaseField && !s.gatewayField)
  }

  /** The gateway's bookkeeping is the truth about who is calling. */
  ghost predicate GatewayValid(s: Scope) {
    && (forall t: TaskId :: ActivityOf(s, t).InCall? <==> s.gateway.Some? && s.gateway.value.running == Some(t))
    && (!s.owner.Inside? ==> !ActivityOf(s, OWNER).InCall?)
  }

  /** What the cleanup task still owes. */
  ghost predicate CleanupValid(s: Scope) {
    && (s.cleanup.Scheduled? ==>
          (s.cleanup.lease <==> s.lease.Held?) && !s.lease.Exiting? && !s.lease.Released?
          && (s.cleanup.gateway <==> s.gateway.Some?)
          && (s.gateway.Some? ==> s.gateway.value.available && s.lease.Held?))
    && (s.cleanup.Draining? ==>
          s.cleanup.lease && s.cleanup.task != OWNER && s.lease.Held? && s.gateway.Some?
          && !s.gateway.value.available && s.gateway.value.running in {None, Some(s.cleanup.task)})
    && (s.cleanup.Releasing? ==> s.lease.Exiting?)
    && (s.cleanup.Done? ==> s.lease in {Unleased, Released})
    && (s.cleanup.Releasing? || s.cleanup.Done? ==>
          s.gateway.Some? ==> !s.gateway.value.available && s.gateway.value.running.None?)
    && (s.lease in {Exiting, Released} ==> s.cleanup.Releasing? || s.cleanup.Done?)
  }

  ghost predicate Valid(s: Scope) {
    OwnerValid(s) && GatewayValid(s) && CleanupValid(s)
  }

  lemma StepKeepsOwner(s: Scope, step: Step)
    requires Valid(s) && Next(s, step).Some?
    ensures OwnerValid(Next(s, step).value)
  {
  }

  lemma StepKeepsGateway(s: Scope, step: Step)
    requires Valid(s) && Next(s, step).Some?
    ensures GatewayValid(Next(s, step).value)
  {
    var after := Next(s, step).value;
    forall t: TaskId
      ensures ActivityOf(after, t).InCall? <==> after.gateway.Some? && after.gateway.value.running == Some(t)
    {
      assert ActivityOf(s, t).InCall? <==> s.gateway.Some? && s.gateway.value.running == Some(t);
    }
  }

  lemma StepKeepsCleanup(s: Scope, step: Step)
    requires Valid(s) && Next(s, step).Some?
    ensures CleanupValid(Next(s, step).value)
  {
  }

  lemma StepKeepsValid(s: Scope, step: Step)
    requires Valid(s) && Next(s, step).Some?
    ensures Valid(Next(s, step).value)
  {
    hide Next, OwnerValid, GatewayValid, CleanupValid;
    StepKeepsOwner(s, step);
    StepKeepsGateway(s, step);
    StepKeepsCleanup(s, step);
  }

  lemma {:induction false} RunKeepsValid(s: Scope, steps: seq<Step>)
    requires Valid(s) && Possible(s, steps)
    ensures Valid(After(s, steps))
    decreases |steps|
  {
    hide Next, Valid;
    if steps != [] {
      StepKeepsValid(s, steps[0]);
      RunKeepsValid(Next(s, steps[0]).value, steps[1..]);
    }
  }

  // ---- safety over every interleaving

  ghost predicate Reached(s: Scope, steps: seq<Step>) {
    Possible(INITIAL, steps) && s == After(INITIAL, steps)
  }

  lemma ReachedValid(s: Scope, steps: seq<Step>)
    requires Reached(s, steps)
    ensures Valid(s)
  {
    RunKeepsValid(INITIAL, steps);
  }

  /** At most one provider call is in flight. */
  lemma SingleFlight(s: Scope, steps: seq<Step>, t: TaskId, u: TaskId)
    requires Reached(s, steps) && ActivityOf(s, t).InCall? && ActivityOf(s, u).InCall?
    ensures t == u
  {
    ReachedValid(s, steps);
  }

  /** From the moment the lease's exit begins no provider call is in flight. */
  lemma LeaseExitsAfterDrain(s: Scope, steps: seq<Step>, t: TaskId)
    requires Reached(s, steps) && s.lease in {Exiting, Released}
    ensures !ActivityOf(s, t).InCall?
  {
    ReachedValid(s, steps);
  }

  ghost predicate Revoked(s: Scope) {
    s.gateway.Some? && !s.gateway.value.available
  }

  lemma StepKeepsRevoked(s: Scope, step: Step)
    requires Valid(s) && Revoked(s) && Next(s, step).Some?
    ensures Revoked(Next(s, step).value) && !step.CallStarts?
  {
  }

  lemma {:induction false} RevocationLasts(s: Scope, steps: seq<Step>)
    requires Valid(s) && Revoked(s) && Possible(s, steps)
    ensures Revoked(After(s, steps))
    ensures forall i | 0 <= i < |steps| :: !steps[i].CallStarts?
    decreases |steps|
  {
    hide Next, Valid, Revoked;
    if steps != [] {
      StepKeepsValid(s, steps[0]);
      StepKeepsRevoked(s, steps[0]);
      RevocationLasts(Next(s, steps[0]).value, steps[1..]);
      forall i | 0 <= i < |steps| ensures !steps[i].CallStarts? {
        if i > 0 { assert steps[i] == steps[1..][i - 1]; }
      }
    }
  }

  /** No call starts after the gateway is revoked. */
  lemma NoCallAfterRevoke(steps: seq<Step>, i: nat, j: nat)
    requires Possible(INITIAL, steps) && i <= j < |steps|
    requires Possible(INITIAL, steps[..i]) && Revoked(After(INITIAL, steps[..i]))
    ensures !steps[j].CallStarts?
  {
    RunSplits(INITIAL, steps, i);
    RunKeepsValid(INITIAL, steps[..i]);
    RevocationLasts(After(INITIAL, steps[..i]), steps[i..]);
    assert steps[j] == steps[i..][j - i];
  }

  // ---- the lease is exited exactly once

  predicate EntersLease(step: Step) {
    step.Acquire? && !step.how.LeaseFailed?
  }

  function Entries(steps: seq<Step>): nat {
    if steps == [] then 0 else (if EntersLease(steps[0]) then 1 else 0) + Entries(steps[1..])
  }

  function Exits(steps: seq<Step>): nat {
    if steps == [] then 0 else (if steps[0].LeaseExits? then 1 else 0) + Exits(steps[1..])
  }

  function Owed(s: Scope): nat {
    if s.lease in {Held, Exiting} then 1 else 0
  }

  function Entered(s: Scope): nat {
    if s.lease.Unleased? then 0 else 1
  }

  lemma StepLeaseAccount(s: Scope, step: Step)
    requires Valid(s) && Next(s, step).Some?
    ensures Entered(s) + (if EntersLease(step) then 1 else 0) == Entered(Next(s, step).value)
    ensures Owed(s) + (if EntersLease(step) then 1 else 0)
         == Owed(Next(s, step).value) + if step.LeaseExits? then 1 else 0
  {
  }

  lemma {:induction false} LeaseAccount(s: Scope, steps: seq<Step>)
    requires Valid(s) && Possible(s, steps)
    ensures Entered(s) + Entries(steps) == Entered(After(s, steps))
    ensures Owed(s) + Entries(steps) == Owed(After(s, steps)) + Exits(steps)
    decreases |steps|
  {
    hide Next, Valid, Entered, Owed, EntersLease;
    if steps != [] {
      StepKeepsValid(s, steps[0]);
      StepLeaseAccount(s, steps[0]);
      LeaseAccount(Next(s, steps[0]).value, steps[1..]);
    }
  }

  /** A lease is entered at most once and exited at most as often; when the owner is done
      a lease that was entered has been exited, exactly once. */
  lemma LeaseExitedExactlyOnce(s: Scope, steps: seq<Step>)
    requires Reached(s, steps)
    ensures Exits(steps) <= Entries(steps) <= 1
    ensures s.owner.Gone? ==> Exits(steps) == Entries(steps)
  {
    LeaseAccount(INITIAL, steps);
    ReachedValid(s, steps);
  }

  // ---- cleanup survives cancellation

  ghost predicate Settled(s: Scope) {
    && s.closed && !s.leaseField && !s.gatewayField
    && s.lease in {Unleased, Released}
    && (s.gateway.Some? ==> Revoked(s) && s.gateway.value.running.None?)
    && forall t: TaskId :: !ActivityOf(s, t).InCall?
  }

  /** However many cancellations arrive, the owner resumes only when the release is done. */
  lemma OwnerResumesSettled(s: Scope, steps: seq<Step>)
    requires Reached(s, steps) && s.owner.Gone?
    ensures Settled(s)
  {
    ReachedValid(s, steps);
  }

  ghost predicate CancelledSoFar(s: Scope, seen: bool, primary: bool) {
    && (s.owner.Cleaning? ==> s.owner.primary == primary && s.owner.cancelled == seen)
    && (s.owner.Gone? ==>
          if primary then s.owner.result.ReRaised?
          else if seen then s.owner.result.RaisedCancelled?
          else s.owner.result == if s.cleanup.Done? && s.cleanup.failure then RaisedFailure else Returned)
  }

  ghost predicate Closing(s: Scope) {
    s.owner.Cleaning? || s.owner.Gone?
  }

  lemma StepTracksCancellation(s: Scope, step: Step, seen: bool, primary: bool)
    requires Valid(s) && Closing(s) && CancelledSoFar(s, seen, primary) && Next(s, step).Some?
    ensures Closing(Next(s, step).value)
    ensures CancelledSoFar(Next(s, step).value, seen || step == CancelOwner, primary)
  {
  }

  lemma {:induction false} CancellationTracked(s: Scope, steps: seq<Step>, seen: bool, primary: bool)
    requires Valid(s) && Closing(s) && CancelledSoFar(s, seen, primary) && Possible(s, steps)
    ensures CancelledSoFar(After(s, steps), seen || CancelOwner in steps, primary)
    ensures Closing(After(s, steps))
    decreases |steps|
  {
    hide Next, Valid, Closing, CancelledSoFar;
    if steps != [] {
      StepKeepsValid(s, steps[0]);
      StepTracksCancellation(s, steps[0], seen, primary);
      assert CancelOwner in steps <==> steps[0] == CancelOwner || CancelOwner in steps[1..];
      CancellationTracked(Next(s, steps[0]).value, steps[1..], seen || steps[0] == CancelOwner, primary);
    }
  }

  /** What an exit reports: the body's own exception wins; otherwise a cancellation that
      arrived during cleanup is raised afterwards, never lost; otherwise a release failure. */
  lemma ExitReports(before: Scope, history: seq<Step>, primary: bool, steps: seq<Step>)
    requires Reached(before, history) && Next(before, Exit(primary)).Some?
    requires Possible(Next(before, Exit(primary)).value, steps)
    ensures var s := After(Next(before, Exit(primary)).value, steps);
            s.owner.Gone? ==>
              && (primary <==> s.owner.result.ReRaised?)
              && (!primary ==> (CancelOwner in steps <==> s.owner.result.RaisedCancelled?))
              && (!primary && CancelOwner !in steps ==>
                    (s.owner.result.RaisedFailure? <==> s.cleanup == Done(true)))
  {
    ReachedValid(before, history);
    var start := Next(before, Exit(primary)).value;
    StepKeepsValid(before, Exit(primary));
    CancellationTracked(start, steps, false, primary);
    RunKeepsValid(start, steps);
  }

  // ---- what the owner is told, from the steps alone

  /** The step brings an exception of its own: a failed entry, or a body that raised. */
  predicate BringsException(step: Step) {
    step == Exit(true) || (step.Acquire? && step.how != Opened)
  }

  predicate ExceptionIn(steps: seq<Step>) {
    exists i | 0 <= i < |steps| :: BringsException(steps[i])
  }

  /** How an owner ends: its own exception comes first, then a cancellation, then a failed release. */
  function Report(raised: bool, cancelled: bool, failed: bool): Result_ {
    if raised then ReRaised else if cancelled then RaisedCancelled else if failed then RaisedFailure else Returned
  }

  /** What has happened so far is what the scope remembers. */
  ghost predicate Remembers(s: Scope, raised: bool, cancelled: bool, failed: bool) {
    && (!Closing(s) ==> !raised && !cancelled)
    && (s.owner.Cleaning? ==> s.owner.primary == raised && s.owner.cancelled == cancelled)
    && (failed <==> s.cleanup == Done(true))
    && (s.owner.Gone? ==> s.owner.result == Report(raised, cancelled, failed))
  }

  lemma StepIsRemembered(s: Scope, step: Step, raised: bool, cancelled: bool, failed: bool)
    requires Valid(s) && Remembers(s, raised, cancelled, failed) && Next(s, step).Some?
    ensures Remembers(Next(s, step).value, raised || BringsException(step), cancelled || step == CancelOwner,
                      failed || step == LeaseExits(true))
  {
  }

  lemma {:induction false} RunIsRemembered(s: Scope, steps: seq<Step>, raised: bool, cancelled: bool, failed: bool)
    requires Valid(s) && Remembers(s, raised, cancelled, failed) && Possible(s, steps)
    ensures Remembers(After(s, steps), raised || ExceptionIn(steps), cancelled || CancelOwner in steps,
                      failed || LeaseExits(true) in steps)
    decreases |steps|
  {
    hide Next, Valid, Remembers, BringsException;
    if steps != [] {
      var step, rest := steps[0], steps[1..];
      StepKeepsValid(s, step);
      StepIsRemembered(s, step, raised, cancelled, failed);
      RunIsRemembered(Next(s, step).value, rest, raised || BringsException(step), cancelled || step == CancelOwner,
                      failed || step == LeaseExits(true));
      assert steps == [step] + rest;
      ExceptionsSplit(step, rest);
    }
  }

  lemma ExceptionsSplit(step: Step, rest: seq<Step>)
    ensures ExceptionIn([step] + rest) <==> BringsException(step) || ExceptionIn(rest)
  {
    hide BringsException;
    var steps := [step] + rest;
    assert steps[0] == step && forall i | 0 <= i < |rest| :: steps[i + 1] == rest[i];
  }

  /** In every run the owner ends as the run's steps say: with its own exception exactly when
      the entry failed or the body raised, else with a cancellation exactly when one arrived
      during cleanup, else with an error exactly when the lease's exit raised. */
  lemma RunDecidesReport(s: Scope, steps: seq<Step>)
    requires Reached(s, steps) && s.owner.Gone?
    ensures s.owner.result == Report(ExceptionIn(steps), CancelOwner in steps, LeaseExits(true) in steps)
  {
    RunIsRemembered(INITIAL, steps, false, false, false);
  }

  /** A drain ends only when the caller it waits for is finished. */
  lemma DrainWaitsForCaller(s: Scope, step: Step)
    requires Valid(s) && s.cleanup.Draining? && Next(s, step).Some? && Next(s, step).value.cleanup != s.cleanup
    ensures step == Drained && ActivityOf(s, s.cleanup.task).Finished?
  {
  }

  // ---- cleanup is never stuck

  lemma PossibleStep(s: Scope, step: Step, rest: seq<Step>)
    requires Next(s, step).Some? && Possible(Next(s, step).value, rest)
    ensures Possible(s, [step] + rest)
    ensures After(s, [step] + rest) == After(Next(s, step).value, rest)
  {
  }

  function Distance(s: Scope): nat {
    match s.cleanup
    case NoCleanup => 6
    case Scheduled(_, _) => 5
    case Draining(t, _) => (match ActivityOf(s, t) case InCall => 4 case Free => 3 case Finished => 2)
    case Releasing => 1
    case Done(_) => 0
  }

  function Onward(s: Scope): Step
    requires !s.cleanup.NoCleanup?
  {
    match s.cleanup
    case Scheduled(_, _) => CleanupRuns
    case Draining(t, _) =>
      (match ActivityOf(s, t) case InCall => CallEnds(t) case Free => TaskFinishes(t) case Finished => Drained)
    case Releasing => LeaseExits(false)
    case Done(_) => OwnerResumes
  }

  lemma OnwardStep(s: Scope)
    requires Valid(s) && s.owner.Cleaning?
    ensures var step := Onward(s);
            && !step.CallStarts? && step != CancelOwner
            && Next(s, step).Some?
            && var next := Next(s, step).value;
            if s.cleanup.Done? then next.owner.Gone? else next.owner.Cleaning? && Distance(next) < Distance(s)
  {
  }

  /** In every reachable state of a cleanup at most six further steps complete it; none
      of them needs anything but the cancelled caller and the lease to return. */
  lemma {:induction false} CleanupCanFinish(s: Scope) returns (steps: seq<Step>)
    requires Valid(s) && s.owner.Cleaning?
    ensures |steps| <= Distance(s) + 1 <= 6 && Possible(s, steps) && After(s, steps).owner.Gone?
    ensures forall i | 0 <= i < |steps| :: !steps[i].CallStarts? && steps[i] != CancelOwner
    decreases Distance(s)
  {
    OnwardStep(s);
    assert Distance(s) + 1 <= 6;
    var step := Onward(s);
    hide Next, Valid, Distance, Onward;
    StepKeepsValid(s, step);
    var next := Next(s, step).value;
    var rest := [];
    if !s.cleanup.Done? {
      rest := CleanupCanFinish(next);
    }
    PossibleStep(s, step, rest);
    steps := [step] + rest;
  }

  // ---- the objects

  /** `_GeminiScope` with its `_ScopedGateway`; every method is one step. */
  class RequestScope {
    var entered: bool
    var closed: bool
    var leaseField: bool
    var gatewayField: bool
    var gateway: Option<Gateway>
    var lease: Lease
    var owner: Owner
    var cleanup: Cleanup
    var tasks: map<TaskId, Activity>

    ghost function State(): Scope
      reads this
    {
      Scope(entered, closed, leaseField, gatewayField, gateway, lease, owner, cleanup, tasks)
    }

    constructor ()
      ensures State() == INITIAL
    {
      entered, closed, leaseField, gatewayField := false, false, false, false;
      gateway, lease, owner, cleanup, tasks := None, Unleased, NotStarted, NoCleanup, map[];
    }

    /** The start of `__aenter__`: one-shot. */
    method EnterScope() returns (ok: bool)
      requires owner.NotStarted? || entered || closed
      modifies this
      ensures ok <==> Next(old(State()), Enter).Some?
      ensures State() == if ok then Next(old(State()), Enter).value else old(State())
    {
      if entered || closed { return false; }
      entered := true;
      owner := Acquiring;
      return true;
    }

    /** The rest of `__aenter__`, once the lease's own entry returned or raised. */
    method ResumeEnter(how: Acquisition)
      requires owner.Acquiring?
      modifies this
      ensures Next(old(State()), Acquire(how)) == Some(State())
    {
      match how {
        case Opened =>
          lease, leaseField := Held, true;
          gateway, gatewayField := Some(Gateway(true, None)), true;
          owner := Inside;
        case LeaseFailed =>
          StartCleanup(true);
        case Rejected(gatewaySet) =>
          lease, leaseField := Held, true;
          gateway := None;
          gatewayField := gatewaySet;
          if gatewaySet { gateway := Some(Gateway(true, None)); }
          StartCleanup(true);
      }
    }

    /** `_cleanup` up to its first await: take the fields, create the release task. */
    method StartCleanup(primary: bool)
      modifies this
      ensures State() == Close(old(State()), primary)
    {
      closed := true;
      var hadGateway, hadLease := gatewayField, leaseField;
      gatewayField, leaseField := false, false;
      cleanup := Scheduled(hadGateway, hadLease);
      owner := Cleaning(primary, false);
    }

    /** `generate` up to the provider call. It is refused exactly when the scope is
        revoked or another call is in flight. */
    method BeginGenerate(task: TaskId) returns (ok: bool)
      requires gateway.Some? && (task in tasks ==> tasks[task].Free?) && (task == OWNER ==> owner.Inside?)
      modifies this
      ensures ok <==> old(gateway.value.available && gateway.value.running.None?)
      ensures Next(old(State()), CallStarts(task)) == (if ok then Some(State()) else None)
      ensures !ok ==> State() == old(State())
    {
      if !gateway.value.available || gateway.value.running.Some? { return false; }
      gateway := Some(gateway.value.(running := Some(task)));
      tasks := tasks[task := InCall];
      return true;
    }

    /** The `finally` of `generate`. */
    method EndGenerate(task: TaskId)
      requires gateway.Some? && task in tasks && tasks[task].InCall?
      modifies this
      ensures Next(old(State()), CallEnds(task)) == Some(State())
    {
      gateway := Some(gateway.value.(running := None));
      tasks := tasks[task := Free];
    }

    /** `__aexit__` up to its first await. */
    method ExitScope(primary: bool) returns (ok: bool)
      requires Valid(State()) && !(OWNER in tasks && tasks[OWNER].InCall?)
      requires owner.Inside? || !entered || closed
      modifies this
      ensures ok <==> Next(old(State()), Exit(primary)).Some?
      ensures State() == if ok then Next(old(State()), Exit(primary)).value else old(State())
    {
      if !entered || closed { return false; }
      StartCleanup(primary);
      return true;
    }

    /** The loop around the shield swallows a cancellation and remembers it. */
    method CancelDuringCleanup()
      requires owner.Cleaning?
      modifies this
      ensures Next(old(State()), CancelOwner) == Some(State())
    {
      owner := owner.(cancelled := true);
    }

    /** The release task's first step: revoke, then drain or go on to the lease. */
    method RunRelease()
      requires Valid(State()) && cleanup.Scheduled?
      modifies this
      ensures Next(old(State()), CleanupRuns) == Some(State())
    {
      var hasLease := cleanup.lease;
      if cleanup.gateway {
        gateway := Some(gateway.value.(available := false));
        if gateway.value.running.Some? {
          cleanup := Draining(gateway.value.running.value, hasLease);
          return;
        }
      }
      ReleaseLease(hasLease);
    }

    method ReleaseLease(hasLease: bool)
      modifies this
      ensures State() == Release(old(State()), hasLease)
    {
      if hasLease {
        cleanup, lease := Releasing, Exiting;
      } else {
        cleanup := Done(false);
      }
    }

    /** The drained caller is finished; release the lease. */
    method ResumeDrained()
      requires Valid(State()) && cleanup.Draining?
      requires cleanup.task in tasks && tasks[cleanup.task].Finished?
      modifies this
      ensures Next(old(State()), Drained) == Some(State())
    {
      gateway := Some(gateway.value.(running := None));
      ReleaseLease(cleanup.lease);
    }
  }
}
