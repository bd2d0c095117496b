/** The evaluation execution state machine: applying one authorized transition at a
    time, and validating a whole record with its decision list. */
module ExecutionState {
  import opened Common

  datatype State = Planned | Validated | Ready | InProgress | Completed | Failed | Cancelled

  datatype Outcome_ = Allow | Deny

  datatype Tier = OfflineEvaluation | OtherTier

  datatype Purpose = StateGovernance | OtherPurpose

  datatype Action = StateTransition | OtherAction

  /** Tenant, organization and policy reference with its revision. */
  datatype Scope = Scope(tenant: Id, org: Id, policy: Id, policyRevision: int)

  datatype Delegation = Delegation(lineage: Id, digest: string)

  /** `references` stands for the definition, target, dataset, evaluator, registry and
      fingerprint references that are only ever compared together. */
  datatype Context = Context(
    executionId: Id, planId: Id, planVersion: Option<Id>, runRequestId: Id, references: Id,
    scope: Scope, authorizationRevision: int, tier: Tier, delegation: Delegation,
    actor: Id, agent: Option<Id>, classification: Classification, createdAt: int)

  datatype Plan = Plan(
    planId: Id, planVersion: Option<Id>, runRequestId: Id, references: Id,
    scope: Scope, auditedAuthorizationRevision: Option<int>, tier: Tier, delegation: Delegation,
    classification: Classification)

  datatype Binding = Binding(
    decisionId: Id, requestId: Id, actor: Id, agent: Option<Id>, scope: Scope, authorizationRevision: int,
    purpose: Purpose, resourcePlanId: Id, action: Action, from: State, to: State, tier: Tier, delegation: Delegation)

  datatype Decision = Decision(decisionId: Id, requestId: Id, outcome: Outcome_)

  datatype Transition = Transition(
    id: Id, executionId: Id, planId: Id, from: State, to: State, sequence: int, at: int, binding: Binding)

  datatype Record = Record(
    executionId: Id, planId: Id, planVersion: Option<Id>, runRequestId: Id, classification: Classification,
    initial: State, current: State, context: Context, transitions: seq<Transition>, createdAt: int, updatedAt: int)

  datatype Error =
    | ClassificationError | StateError | SequenceError | BindingMismatch
    | TerminalState | InvalidTransition | AuthorizationError

  // ---- single transitions

  predicate Terminal(s: State) {
    s in {Completed, Failed, Cancelled}
  }

  predicate SuccessStep(from: State, to: State) {
    (from, to) in {(Planned, Validated), (Validated, Ready), (Ready, InProgress), (InProgress, Completed)}
  }

  function CheckStates(from: State, to: State): Outcome<Error> {
    if from == to then Fail(InvalidTransition)
    else if Terminal(from) then Fail(TerminalState)
    else if !SuccessStep(from, to) && to !in {Failed, Cancelled} then Fail(InvalidTransition)
    else Pass
  }

  /** The plan's audited authorization revision, or the context's own when there is none. */
  function CheckPlan(c: Context, p: Plan): Outcome<Error> {
    if !NotLower(c.classification, p.classification) then Fail(ClassificationError)
    else if (c.planId, c.planVersion, c.runRequestId, c.references, c.scope, c.authorizationRevision, c.tier, c.delegation)
            != (p.planId, p.planVersion, p.runRequestId, p.references, p.scope,
                if p.auditedAuthorizationRevision.Some? then p.auditedAuthorizationRevision.value else c.authorizationRevision,
                p.tier, p.delegation)
    then Fail(BindingMismatch)
    else Pass
  }

  function CheckAuthorization(b: Binding, d: Decision, c: Context, t: Transition): Outcome<Error> {
    if d.outcome != Allow || d.decisionId != b.decisionId || d.requestId != b.requestId then Fail(AuthorizationError)
    else if (b.actor, b.agent, b.scope, b.authorizationRevision, b.purpose, b.resourcePlanId, b.action, b.from, b.to,
             b.tier, b.delegation)
            != (c.actor, c.agent, c.scope, c.authorizationRevision, StateGovernance, c.planId, StateTransition, t.from, t.to,
                OfflineEvaluation, c.delegation)
    then Fail(AuthorizationError)
    else Pass
  }

  // ---- what a step demands, field by field

  /** The decision allows this very step to this very context. */
  predicate Authorizes(d: Decision, c: Context, t: Transition) {
    var b := t.binding;
    && d.outcome == Allow && d.decisionId == b.decisionId && d.requestId == b.requestId
    && b.actor == c.actor && b.agent == c.agent && b.scope == c.scope
    && b.authorizationRevision == c.authorizationRevision && b.purpose == StateGovernance
    && b.resourcePlanId == c.planId && b.action == StateTransition && b.from == t.from && b.to == t.to
    && b.tier == OfflineEvaluation && b.delegation == c.delegation
  }

  /** The context repeats the plan it is executed for. */
  predicate RepeatsPlan(c: Context, p: Plan) {
    && c.planId == p.planId && c.planVersion == p.planVersion && c.runRequestId == p.runRequestId
    && c.references == p.references && c.scope == p.scope && c.tier == p.tier && c.delegation == p.delegation
    && p.auditedAuthorizationRevision in {None, Some(c.authorizationRevision)}
  }

  predicate BoundToPlan(c: Context, p: Plan) {
    NotLower(c.classification, p.classification) && RepeatsPlan(c, p)
  }

  /** The states that can come next. */
  function Successors(s: State): set<State> {
    match s
    case Planned => {Validated, Failed, Cancelled}
    case Validated => {Ready, Failed, Cancelled}
    case Ready => {InProgress, Failed, Cancelled}
    case InProgress => {Completed, Failed, Cancelled}
    case Completed => {}
    case Failed => {}
    case Cancelled => {}
  }

  // ---- the history

  /** The first thing wrong with one entry, in the order the code looks. */
  function CheckEntry(
    t: Transition, sequence: int, seen: seq<Id>, executionId: Id, planId: Id, expected: State, previous: int): Outcome<Error>
  {
    if t.sequence != sequence then Fail(SequenceError)
    else if t.id in seen then Fail(SequenceError)
    else if t.executionId != executionId || t.planId != planId then Fail(BindingMismatch)
    else if t.from != expected then Fail(SequenceError)
    else if t.at < previous then Fail(SequenceError)
    else CheckStates(t.from, t.to)
  }

  function StateAfter(ts: seq<Transition>): State {
    if ts == [] then Planned else ts[|ts| - 1].to
  }

  function TimeAfter(ts: seq<Transition>, createdAt: int): int {
    if ts == [] then createdAt else ts[|ts| - 1].at
  }

  function Ids(ts: seq<Transition>): seq<Id> {
    seq(|ts|, i requires 0 <= i < |ts| => ts[i].id)
  }

  function CheckHistory(ts: seq<Transition>, executionId: Id, planId: Id, createdAt: int): Outcome<Error> {
    if ts == [] then Pass
    else
      var n := |ts| - 1;
      match CheckHistory(ts[..n], executionId, planId, createdAt)
      case Fail(e) => Fail(e)
      case Pass =>
        CheckEntry(ts[n], n + 1, Ids(ts[..n]), executionId, planId, StateAfter(ts[..n]), TimeAfter(ts[..n], createdAt))
  }

  /** The loop that validates a history. */
  method ValidateHistory(ts: seq<Transition>, executionId: Id, planId: Id, createdAt: int) returns (r: Outcome<Error>)
    ensures r == CheckHistory(ts, executionId, planId, createdAt)
  {
    var expected := Planned;
    var previous := createdAt;
    var seen: seq<Id> := [];
    for i := 0 to |ts|
      invariant expected == StateAfter(ts[..i]) && previous == TimeAfter(ts[..i], createdAt) && seen == Ids(ts[..i])
      invariant CheckHistory(ts[..i], executionId, planId, createdAt) == Pass
    {
      var t := ts[i];
      assert ts[..i + 1][..i] == ts[..i] && ts[..i + 1][i] == t;
      r := CheckEntry(t, i + 1, seen, executionId, planId, expected, previous);
      if r.Fail? {
        FirstFailureStands(ts, i + 1, executionId, planId, createdAt);
        return;
      }
      seen := seen + [t.id];
      expected, previous := t.to, t.at;
      assert seen == Ids(ts[..i + 1]);
    }
    assert ts[..|ts|] == ts;
    return Pass;
  }

  lemma {:induction false} FirstFailureStands(ts: seq<Transition>, i: nat, executionId: Id, planId: Id, createdAt: int)
    requires i <= |ts| && CheckHistory(ts[..i], executionId, planId, createdAt).Fail?
    ensures CheckHistory(ts, executionId, planId, createdAt) == CheckHistory(ts[..i], executionId, planId, createdAt)
    decreases |ts|
  {
    if i < |ts| {
      var n := |ts| - 1;
      assert ts[..n][..i] == ts[..i];
      FirstFailureStands(ts[..n], i, executionId, planId, createdAt);
    } else {
      assert ts[..i] == ts;
    }
  }

  /** What the i-th entry of a canonical history is, without any running state. */
  ghost predicate Fits(ts: seq<Transition>, i: nat, executionId: Id, planId: Id, createdAt: int)
    requires i < |ts|
  {
    && ts[i].sequence == i + 1 && ts[i].executionId == executionId && ts[i].planId == planId
    && ts[i].from == (if i == 0 then Planned else ts[i - 1].to)
    && (if i == 0 then createdAt else ts[i - 1].at) <= ts[i].at
    && ts[i].to in Successors(ts[i].from)
    && forall j | 0 <= j < i :: ts[j].id != ts[i].id
  }

  ghost predicate Canonical(ts: seq<Transition>, executionId: Id, planId: Id, createdAt: int) {
    forall i | 0 <= i < |ts| :: Fits(ts, i, executionId, planId, createdAt)
  }

  lemma CanonicalSplits(ts: seq<Transition>, executionId: Id, planId: Id, createdAt: int)
    requires ts != []
    ensures var n := |ts| - 1;
            Canonical(ts, executionId, planId, createdAt) <==>
            Canonical(ts[..n], executionId, planId, createdAt) && Fits(ts, n, executionId, planId, createdAt)
  {
    var n := |ts| - 1;
    forall i | 0 <= i < n
      ensures Fits(ts[..n], i, executionId, planId, createdAt) <==> Fits(ts, i, executionId, planId, createdAt)
    {
      hide SuccessStep, Terminal;
      assert forall j | 0 <= j < n :: ts[..n][j] == ts[j];
    }
    hide Fits;
  }

  lemma {:induction false} HistoryPassesIffCanonical(ts: seq<Transition>, executionId: Id, planId: Id, createdAt: int)
    ensures CheckHistory(ts, executionId, planId, createdAt).Pass? <==> Canonical(ts, executionId, planId, createdAt)
  {
    if ts != [] {
      var n := |ts| - 1;
      HistoryPassesIffCanonical(ts[..n], executionId, planId, createdAt);
      CanonicalSplits(ts, executionId, planId, createdAt);
      assert ts[n].id in Ids(ts[..n]) <==> exists j | 0 <= j < n :: ts[j].id == ts[n].id by {
        if j :| 0 <= j < n && ts[j].id == ts[n].id { assert Ids(ts[..n])[j] == ts[n].id; }
      }
      hide SuccessStep, Terminal, Canonical, Ids;
    }
  }

  // ---- records

  /** The validator every constructed record passes. */
  function CheckRecord(r: Record): Outcome<Error> {
    if !NotLower(r.classification, r.context.classification) then Fail(ClassificationError)
    else if r.initial != Planned then Fail(StateError)
    else if r.updatedAt < r.createdAt then Fail(SequenceError)
    else
      match CheckHistory(r.transitions, r.executionId, r.planId, r.createdAt)
      case Fail(e) => Fail(e)
      case Pass =>
        if r.current != StateAfter(r.transitions) then Fail(StateError)
        else if r.updatedAt != TimeAfter(r.transitions, r.createdAt) then Fail(SequenceError)
        else if r.context.executionId != r.executionId || r.context.planId != r.planId
                || r.context.runRequestId != r.runRequestId || r.context.planVersion != r.planVersion
                || r.context.createdAt != r.createdAt
        then Fail(BindingMismatch)
        else Pass
  }

  function CheckTransition(t: Transition, r: Record, p: Plan, d: Decision): Outcome<Error> {
    match CheckPlan(r.context, p)
    case Fail(e) => Fail(e)
    case Pass =>
      if t.executionId != r.executionId || t.planId != r.planId then Fail(BindingMismatch)
      else if t.sequence != |r.transitions| + 1 then Fail(SequenceError)
      else if t.from != r.current then Fail(SequenceError)
      else if t.at < r.updatedAt then Fail(SequenceError)
      else
        match CheckStates(t.from, t.to)
        case Fail(e) => Fail(e)
        case Pass => CheckAuthorization(t.binding, d, r.context, t)
  }

  /** Applies one transition; the new record passes through its own validator. */
  function Apply(r: Record, t: Transition, p: Plan, d: Decision): Result<Record, Error> {
    match CheckTransition(t, r, p, d)
    case Fail(e) => Err(e)
    case Pass =>
      var next := r.(current := t.to, transitions := r.transitions + [t], updatedAt := t.at);
      match CheckRecord(next)
      case Fail(e) => Err(e)
      case Pass => Ok(next)
  }

  function CheckDecisions(ts: seq<Transition>, ds: seq<Decision>, c: Context): Outcome<Error>
    requires |ts| == |ds|
  {
    if ts == [] then Pass
    else
      match CheckAuthorization(ts[0].binding, ds[0], c, ts[0])
      case Fail(e) => Fail(e)
      case Pass => CheckDecisions(ts[1..], ds[1..], c)
  }

  /** Validates a whole record against its plan and its decision list. */
  function ValidateRecord(r: Record, p: Plan, ds: seq<Decision>): Outcome<Error> {
    if !NotLower(r.classification, p.classification) || !NotLower(r.classification, r.context.classification)
    then Fail(ClassificationError)
    else
      match CheckPlan(r.context, p)
      case Fail(e) => Fail(e)
      case Pass =>
        if r.executionId != r.context.executionId || r.planId != r.context.planId
           || r.planVersion != r.context.planVersion || r.runRequestId != r.context.runRequestId
           || r.createdAt != r.context.createdAt
        then Fail(BindingMismatch)
        else
          match CheckHistory(r.transitions, r.executionId, r.planId, r.createdAt)
          case Fail(e) => Fail(e)
          case Pass =>
            if r.initial != Planned then Fail(StateError)
            else if r.current != StateAfter(r.transitions) then Fail(StateError)
            else if r.updatedAt != TimeAfter(r.transitions, r.createdAt) then Fail(SequenceError)
            else if r.planVersion != p.planVersion then Fail(BindingMismatch)
            else if |ds| != |r.transitions| then Fail(AuthorizationError)
            else CheckDecisions(r.transitions, ds, r.context)
  }

  // ---- stepwise and batch agree

  /** The record before anything happened. */
  function Unstarted(r: Record): Record {
    r.(initial := Planned, current := Planned, transitions := [], updatedAt := r.createdAt)
  }

  /** Applies a history from the empty planned record, which must itself be constructible. */
  function Rebuild(r: Record, p: Plan, ts: seq<Transition>, ds: seq<Decision>): Result<Record, Error>
    requires |ts| == |ds|
  {
    if ts == [] then
      match CheckRecord(Unstarted(r)) case Fail(e) => Err(e) case Pass => Ok(Unstarted(r))
    else
      var n := |ts| - 1;
      match Rebuild(r, p, ts[..n], ds[..n])
      case Err(e) => Err(e)
      case Ok(before) => Apply(before, ts[n], p, ds[n])
  }

  predicate Authorized(ts: seq<Transition>, ds: seq<Decision>, c: Context) {
    |ts| == |ds| && forall i | 0 <= i < |ts| :: Authorizes(ds[i], c, ts[i])
  }

  lemma AuthorizationIsDemanded(d: Decision, c: Context, t: Transition)
    ensures CheckAuthorization(t.binding, d, c, t) == if Authorizes(d, c, t) then Pass else Fail(AuthorizationError)
  {
  }

  lemma PlanIsDemanded(c: Context, p: Plan)
    ensures CheckPlan(c, p)
            == Outcome<Error>.Pass.Check(NotLower(c.classification, p.classification), ClassificationError)
                                  .Check(RepeatsPlan(c, p), BindingMismatch)
  {
  }

  lemma StatesAreDemanded(from: State, to: State)
    ensures CheckStates(from, to)
            == Outcome<Error>.Pass.Check(from != to, InvalidTransition)
                                  .Check(from !in {Completed, Failed, Cancelled}, TerminalState)
                                  .Check(to in Successors(from), InvalidTransition)
  {
  }

  lemma {:induction false} DecisionsPassIffAuthorized(ts: seq<Transition>, ds: seq<Decision>, c: Context)
    requires |ts| == |ds|
    ensures CheckDecisions(ts, ds, c) == if Authorized(ts, ds, c) then Pass else Fail(AuthorizationError)
  {
    hide CheckAuthorization, Authorizes;
    if ts != [] {
      DecisionsPassIffAuthorized(ts[1..], ds[1..], c);
      AuthorizationIsDemanded(ds[0], c, ts[0]);
      assert forall i | 0 < i < |ts| :: ts[i] == ts[1..][i - 1] && ds[i] == ds[1..][i - 1];
    }
  }

  /** The record a history leads to. */
  function Along(r: Record, ts: seq<Transition>): Record {
    r.(initial := Planned, current := StateAfter(ts), transitions := ts, updatedAt := TimeAfter(ts, r.createdAt))
  }

  /** The part of a record that no transition changes is consistent. */
  predicate Grounded(r: Record) {
    && NotLower(r.classification, r.context.classification)
    && r.context.executionId == r.executionId && r.context.planId == r.planId
    && r.context.runRequestId == r.runRequestId && r.context.planVersion == r.planVersion
    && r.context.createdAt == r.createdAt
  }

  lemma {:induction false} CanonicalTimes(ts: seq<Transition>, executionId: Id, planId: Id, createdAt: int)
    requires Canonical(ts, executionId, planId, createdAt)
    ensures createdAt <= TimeAfter(ts, createdAt)
  {
    if ts != [] {
      CanonicalSplits(ts, executionId, planId, createdAt);
      CanonicalTimes(ts[..|ts| - 1], executionId, planId, createdAt);
    }
  }

  lemma RecordPassesIff(r: Record, ts: seq<Transition>)
    ensures CheckRecord(Along(r, ts)).Pass? <==>
            Grounded(r) && CheckHistory(ts, r.executionId, r.planId, r.createdAt).Pass?
  {
  }

  lemma {:induction false} RebuildSucceedsIff(r: Record, p: Plan, ts: seq<Transition>, ds: seq<Decision>)
    requires |ts| == |ds|
    ensures Rebuild(r, p, ts, ds).Ok? <==>
            && Grounded(r) && CheckHistory(ts, r.executionId, r.planId, r.createdAt).Pass?
            && Authorized(ts, ds, r.context) && (ts != [] ==> BoundToPlan(r.context, p))
    ensures Rebuild(r, p, ts, ds).Ok? ==> Rebuild(r, p, ts, ds).value == Along(r, ts)
  {
    RecordPassesIff(r, ts);
    if ts != [] {
      var n := |ts| - 1;
      var before, t, d := ts[..n], ts[n], ds[n];
      RebuildSucceedsIff(r, p, before, ds[..n]);
      hide CheckAuthorization, CheckPlan, CheckStates;
      AuthorizedSplits(ts, ds, r.context);
      if Rebuild(r, p, before, ds[..n]).Ok? {
        assert before + [t] == ts;
        ApplyAlong(r, before, t, p, d);
      }
    }
  }

  lemma AuthorizedSplits(ts: seq<Transition>, ds: seq<Decision>, c: Context)
    requires |ts| == |ds| && ts != []
    ensures var n := |ts| - 1;
            Authorized(ts, ds, c) <==>
            Authorized(ts[..n], ds[..n], c) && Authorizes(ds[n], c, ts[n])
  {
  }

  lemma ApplyAlong(r: Record, before: seq<Transition>, t: Transition, p: Plan, d: Decision)
    requires CheckRecord(Along(r, before)).Pass?
    ensures Apply(Along(r, before), t, p, d).Ok? <==>
            && BoundToPlan(r.context, p)
            && CheckHistory(before + [t], r.executionId, r.planId, r.createdAt).Pass?
            && Authorizes(d, r.context, t)
    ensures Apply(Along(r, before), t, p, d).Ok? ==>
              Apply(Along(r, before), t, p, d).value == Along(r, before + [t])
  {
    RecordPassesIff(r, before);
    RecordPassesIff(r, before + [t]);
    assert (before + [t])[..|before|] == before;
    assert Along(r, before).(current := t.to, transitions := before + [t], updatedAt := t.at) == Along(r, before + [t]);
    hide CheckAuthorization, CheckPlan, CheckRecord, CheckStates;
  }

  /** Stepwise equals batch: a record and its decision list pass whole-record validation
      exactly when its context is bound to the plan and applying its history step by step
      from the empty planned record rebuilds the record itself. */
  lemma StepwiseEqualsBatch(r: Record, p: Plan, ds: seq<Decision>)
    ensures ValidateRecord(r, p, ds).Pass? <==>
            && BoundToPlan(r.context, p)
            && |ds| == |r.transitions|
            && Rebuild(r, p, r.transitions, ds) == Ok(r)
  {
    if |ds| == |r.transitions| {
      RebuildSucceedsIff(r, p, r.transitions, ds);
      DecisionsPassIffAuthorized(r.transitions, ds, r.context);
    }
    hide CheckHistory, Rebuild, Authorized, CheckDecisions, CheckAuthorization;
  }

  /** With at least one transition the plan condition is implied by the steps. */
  lemma StepwiseEqualsBatchOnceStarted(r: Record, p: Plan, ds: seq<Decision>)
    requires r.transitions != [] && |ds| == |r.transitions|
    ensures ValidateRecord(r, p, ds).Pass? <==> Rebuild(r, p, r.transitions, ds) == Ok(r)
  {
    StepwiseEqualsBatch(r, p, ds);
    RebuildSucceedsIff(r, p, r.transitions, ds);
    hide CheckHistory, Rebuild, Authorized, ValidateRecord, CheckPlan;
  }

  // ---- the same on the fields

  /** One step on a constructed record, with the error of the first demand it misses. */
  lemma ApplyIsExact(r: Record, t: Transition, p: Plan, d: Decision)
    requires CheckRecord(r).Pass?
    ensures var outcome := Outcome<Error>.Pass
              .Check(NotLower(r.context.classification, p.classification), ClassificationError)
              .Check(RepeatsPlan(r.context, p), BindingMismatch)
              .Check(t.executionId == r.executionId && t.planId == r.planId, BindingMismatch)
              .Check(t.sequence == |r.transitions| + 1, SequenceError)
              .Check(t.from == r.current, SequenceError)
              .Check(t.at >= r.updatedAt, SequenceError)
              .Check(t.from != t.to, InvalidTransition)
              .Check(t.from !in {Completed, Failed, Cancelled}, TerminalState)
              .Check(t.to in Successors(t.from), InvalidTransition)
              .Check(Authorizes(d, r.context, t), AuthorizationError)
              .Check(forall u | u in r.transitions :: u.id != t.id, SequenceError);
            Apply(r, t, p, d) == match outcome
                                 case Fail(e) => Err(e)
                                 case Pass => Ok(r.(current := t.to, transitions := r.transitions + [t], updatedAt := t.at))
  {
    PlanIsDemanded(r.context, p);
    StatesAreDemanded(t.from, t.to);
    AuthorizationIsDemanded(d, r.context, t);
    hide CheckPlan, CheckStates, CheckAuthorization, RepeatsPlan, Authorizes, Successors, NotLower;
    hide CheckRecord;
    if CheckTransition(t, r, p, d).Pass? {
      NextRecordPasses(r, t);
    }
  }

  /** After the step's own checks the new record's validator only finds a repeated identity. */
  lemma NextRecordPasses(r: Record, t: Transition)
    requires CheckRecord(r).Pass?
    requires t.executionId == r.executionId && t.planId == r.planId && t.sequence == |r.transitions| + 1
    requires t.from == r.current && t.at >= r.updatedAt && CheckStates(t.from, t.to).Pass?
    ensures CheckRecord(r.(current := t.to, transitions := r.transitions + [t], updatedAt := t.at))
            == if forall u | u in r.transitions :: u.id != t.id then Pass else Fail(SequenceError)
  {
    assert (r.transitions + [t])[..|r.transitions|] == r.transitions;
    RepeatedIdIff(r.transitions, t.id);
    hide CheckStates, Ids, NotLower;
  }

  /** One entry more: the error is the first demand the new entry misses, unless an earlier
      entry failed already. */
  lemma HistoryGrowsExactly(ts: seq<Transition>, t: Transition, executionId: Id, planId: Id, createdAt: int)
    requires CheckHistory(ts, executionId, planId, createdAt).Pass?
    ensures CheckHistory(ts + [t], executionId, planId, createdAt)
            == Outcome<Error>.Pass
               .Check(t.sequence == |ts| + 1, SequenceError)
               .Check(forall u | u in ts :: u.id != t.id, SequenceError)
               .Check(t.executionId == executionId && t.planId == planId, BindingMismatch)
               .Check(t.from == (if ts == [] then Planned else ts[|ts| - 1].to), SequenceError)
               .Check(t.at >= (if ts == [] then createdAt else ts[|ts| - 1].at), SequenceError)
               .Check(t.from != t.to, InvalidTransition)
               .Check(t.from !in {Completed, Failed, Cancelled}, TerminalState)
               .Check(t.to in Successors(t.from), InvalidTransition)
  {
    assert (ts + [t])[..|ts|] == ts;
    RepeatedIdIff(ts, t.id);
    StatesAreDemanded(t.from, t.to);
    hide CheckStates, Ids, Successors;
  }

  lemma RepeatedIdIff(ts: seq<Transition>, id: Id)
    ensures id in Ids(ts) <==> exists u :: u in ts && u.id == id
  {
    if u :| u in ts && u.id == id {
      var i :| 0 <= i < |ts| && ts[i] == u;
      assert Ids(ts)[i] == id;
    }
  }

  /** A whole record passes exactly when it repeats its plan and context, its history is
      canonical, its state and time are the last entry's, and each entry is authorized. */
  lemma ValidateRecordPassesIff(r: Record, p: Plan, ds: seq<Decision>)
    ensures ValidateRecord(r, p, ds).Pass? <==>
            && BoundToPlan(r.context, p) && Grounded(r)
            && Canonical(r.transitions, r.executionId, r.planId, r.createdAt)
            && r.initial == Planned
            && (if r.transitions == [] then r.current == Planned && r.updatedAt == r.createdAt
                else var last := r.transitions[|r.transitions| - 1]; r.current == last.to && r.updatedAt == last.at)
            && |ds| == |r.transitions|
            && forall i | 0 <= i < |ds| :: Authorizes(ds[i], r.context, r.transitions[i])
  {
    PlanIsDemanded(r.context, p);
    HistoryPassesIffCanonical(r.transitions, r.executionId, r.planId, r.createdAt);
    if |ds| == |r.transitions| {
      DecisionsPassIffAuthorized(r.transitions, ds, r.context);
    }
    hide CheckPlan, CheckHistory, CheckDecisions, Authorizes, Canonical;
  }

  // ---- what histories look like

  function Depth(s: State): nat {
    match s
    case Planned => 0 case Validated => 1 case Ready => 2 case InProgress => 3
    case Completed => 4 case Failed => 4 case Cancelled => 4
  }

  lemma {:induction false} CanonicalDepth(ts: seq<Transition>, executionId: Id, planId: Id, createdAt: int, i: nat)
    requires Canonical(ts, executionId, planId, createdAt) && i < |ts|
    ensures Depth(ts[i].from) == i
    ensures !Terminal(ts[i].to) || ts[i].to == Completed ==> Depth(ts[i].to) == i + 1
    ensures i > 0 ==> SuccessStep(ts[i - 1].from, ts[i - 1].to)
  {
    assert Fits(ts, i, executionId, planId, createdAt);
    if i > 0 {
      assert Fits(ts, i - 1, executionId, planId, createdAt);
      CanonicalDepth(ts, executionId, planId, createdAt, i - 1);
    }
  }

  /** Every valid history has at most four transitions, reaches Completed only through
      the four success steps, and ends in Failed or Cancelled otherwise at any depth. */
  lemma HistoriesAreShort(ts: seq<Transition>, executionId: Id, planId: Id, createdAt: int)
    requires CheckHistory(ts, executionId, planId, createdAt).Pass?
    ensures |ts| <= 4
    ensures StateAfter(ts) == Completed ==>
              |ts| == 4 && ts[0].to == Validated && ts[1].to == Ready && ts[2].to == InProgress && ts[3].to == Completed
    ensures forall i | 0 <= i < |ts| - 1 :: SuccessStep(ts[i].from, ts[i].to) && !Terminal(ts[i].to)
  {
    HistoryPassesIffCanonical(ts, executionId, planId, createdAt);
    if ts != [] {
      forall i | 0 <= i < |ts|
        ensures Depth(ts[i].from) == i
        ensures !Terminal(ts[i].to) || ts[i].to == Completed ==> Depth(ts[i].to) == i + 1
      {
        CanonicalDepth(ts, executionId, planId, createdAt, i);
      }
      forall i | 0 <= i < |ts| - 1 ensures SuccessStep(ts[i].from, ts[i].to) && !Terminal(ts[i].to) {
        CanonicalDepth(ts, executionId, planId, createdAt, i + 1);
        assert Fits(ts, i + 1, executionId, planId, createdAt);
      }
      assert Depth(ts[|ts| - 1].from) == |ts| - 1;
    }
  }

  /** No step is accepted by a record in a terminal state. */
  lemma TerminalIsFinal(r: Record, t: Transition, p: Plan, d: Decision)
    requires Terminal(r.current)
    ensures Apply(r, t, p, d).Err?
  {
  }

  /** `Apply`'s own checks never look for a repeated transition identity; the new record's
      validator does, so a repetition is refused all the same. */
  lemma RepetitionCaughtByConstructor(r: Record, t: Transition, p: Plan, d: Decision)
    requires CheckRecord(r).Pass? && t.id in Ids(r.transitions)
    ensures Apply(r, t, p, d).Err?
    ensures CheckTransition(t, r, p, d).Pass? ==> Apply(r, t, p, d) == Err(SequenceError)
  {
  }

  /** Without transitions the steps never look at the plan, so a record bound to another
      plan is rebuilt although whole-record validation rejects it. */
  lemma EmptyHistoryIgnoresPlan(r: Record, p: Plan)
    requires r == Unstarted(r) && CheckRecord(r).Pass? && p.planId != r.planId
    ensures Rebuild(r, p, [], []) == Ok(r)
    ensures ValidateRecord(r, p, []).Fail?
  {
  }
}
