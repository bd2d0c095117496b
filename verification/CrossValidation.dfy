/** Independent cross-validation runs: plans, their registry check, the binding of
    authorizations and results to planned runs, and the collection of results. */
module CrossValidation {
  import opened Common
  import Registry
  import Selection

  const MAX_RUNS := 8

  /** The lineage every item of a plan repeats. */
  datatype Lineage = Lineage(planId: Id, tenant: Id, resource: string, registryId: Id, registryRevision: nat)

  datatype PlannedRun = PlannedRun(
    runId: Id, lineage: Lineage, action: Selection.Action, purpose: string, ordinal: nat, provider: string,
    model: string, adapter: string, capabilities: seq<Registry.Capability>, required: bool,
    selectionRequestId: Id, invocationRequestId: Id, details: string)

  datatype Plan = Plan(
    lineage: Lineage, action: Selection.Action, purpose: string, minimumRequiredRuns: nat, runs: seq<PlannedRun>,
    details: string)

  datatype Error =
    | Unordered | DuplicateRun | LineageMismatch | TooFewRequired
    | RegistryMismatch | NotFound | WrongProvider | CapabilityMissing | NotSelectable
    | AdapterNotFound | AdapterFamily | AdapterProvider
    | PlanMismatch | AuthorizationMismatch | PermitMismatch | ResultMismatch
    | DuplicateResult | UnknownRun | ResultLineage | InvalidCollection

  // ---- plans

  /** What identifies where an answer comes from. */
  function Source(r: PlannedRun): (string, string) {
    (r.provider, r.model)
  }

  function RunIds(runs: seq<PlannedRun>): (ids: seq<Id>)
    ensures |ids| == |runs| && forall i | 0 <= i < |ids| :: ids[i] == runs[i].runId
  {
    MapSeq((r: PlannedRun) => r.runId, runs)
  }

  function Required(runs: seq<PlannedRun>): (r: seq<PlannedRun>)
    ensures |r| <= |runs| && forall x :: x in r <==> x in runs && x.required
  {
    if runs == [] then [] else (if runs[0].required then [runs[0]] else []) + Required(runs[1..])
  }

  /** The plan's own validator, check by check. */
  function CheckPlan(p: Plan): Outcome<Error> {
    if exists i, j | 0 <= i < j < |p.runs| :: p.runs[i].ordinal > p.runs[j].ordinal then Fail(Unordered)
    else if exists i, j | 0 <= i < j < |p.runs| ::
              || p.runs[i].runId == p.runs[j].runId
              || p.runs[i].ordinal == p.runs[j].ordinal
              || p.runs[i].selectionRequestId == p.runs[j].selectionRequestId
              || p.runs[i].invocationRequestId == p.runs[j].invocationRequestId
              || Source(p.runs[i]) == Source(p.runs[j])
    then Fail(DuplicateRun)
    else if exists r | r in p.runs :: (r.lineage, r.action, r.purpose) != (p.lineage, p.action, p.purpose)
    then Fail(LineageMismatch)
    else if |Required(p.runs)| < p.minimumRequiredRuns then Fail(TooFewRequired)
    else Pass
  }

  /** A constructed plan: the declared bounds of its fields, and its validator. */
  predicate ValidPlan(p: Plan) {
    && 2 <= p.minimumRequiredRuns <= MAX_RUNS && 2 <= |p.runs| <= MAX_RUNS
    && CheckPlan(p).Pass?
  }

  predicate OrdinalsAscend(runs: seq<PlannedRun>) {
    forall i, j | 0 <= i < j < |runs| :: runs[i].ordinal <= runs[j].ordinal
  }

  /** Two runs share no identity, no ordinal, no request and no source. */
  predicate Apart(a: PlannedRun, b: PlannedRun) {
    && a.runId != b.runId && a.ordinal != b.ordinal && a.selectionRequestId != b.selectionRequestId
    && a.invocationRequestId != b.invocationRequestId && !(a.provider == b.provider && a.model == b.model)
  }

  predicate RunsApart(runs: seq<PlannedRun>) {
    forall i, j | 0 <= i < j < |runs| :: Apart(runs[i], runs[j])
  }

  /** Every run repeats the plan's lineage, action and purpose. */
  predicate RunsBelong(p: Plan) {
    forall r | r in p.runs :: r.lineage == p.lineage && r.action == p.action && r.purpose == p.purpose
  }

  /** What a plan demands of its runs, pair by pair and run by run, with its errors. */
  lemma PlanIsExact(p: Plan)
    ensures CheckPlan(p) ==
            Outcome<Error>.Pass
            .Check(OrdinalsAscend(p.runs), Unordered)
            .Check(RunsApart(p.runs), DuplicateRun)
            .Check(RunsBelong(p), LineageMismatch)
            .Check(|Required(p.runs)| >= p.minimumRequiredRuns, TooFewRequired)
    ensures ValidPlan(p) <==> 2 <= p.minimumRequiredRuns <= 8 && 2 <= |p.runs| <= 8 && CheckPlan(p).Pass?
  {
    hide Required, OrdinalsAscend, RunsApart, RunsBelong;
    OrdinalsAscendIff(p.runs);
    RunsApartIff(p.runs);
    RunsBelongIff(p);
  }

  lemma OrdinalsAscendIff(runs: seq<PlannedRun>)
    ensures OrdinalsAscend(runs) <==> !exists i, j | 0 <= i < j < |runs| :: runs[i].ordinal > runs[j].ordinal
  {
  }

  lemma RunsApartIff(runs: seq<PlannedRun>)
    ensures RunsApart(runs) <==> !exists i, j | 0 <= i < j < |runs| ::
              || runs[i].runId == runs[j].runId
              || runs[i].ordinal == runs[j].ordinal
              || runs[i].selectionRequestId == runs[j].selectionRequestId
              || runs[i].invocationRequestId == runs[j].invocationRequestId
              || Source(runs[i]) == Source(runs[j])
  {
  }

  lemma RunsBelongIff(p: Plan)
    ensures RunsBelong(p) <==>
            !exists r | r in p.runs :: (r.lineage, r.action, r.purpose) != (p.lineage, p.action, p.purpose)
  {
  }

  /** The two ways in which the runs of a valid plan are told apart. */
  lemma PlannedRunsDiffer(p: Plan, i: nat, j: nat)
    requires CheckPlan(p).Pass? && i < |p.runs| && j < |p.runs| && i != j
    ensures p.runs[i].runId != p.runs[j].runId
    ensures Source(p.runs[i]) != Source(p.runs[j])
  {
  }

  lemma RunIdIdentifies(p: Plan, a: PlannedRun, b: PlannedRun)
    requires CheckPlan(p).Pass? && a in p.runs && b in p.runs
    requires a.runId == b.runId || Source(a) == Source(b)
    ensures a == b
  {
  }

  // ---- the registry check

  datatype Adapter = Adapter(family: string, provider: Option<string>, capabilities: seq<Registry.Capability>)

  function CheckRun(r: PlannedRun, s: Registry.Snapshot, adapters: map<string, Adapter>): Outcome<Error> {
    match (Registry.FindProvider(s.providers, r.provider), Registry.FindModel(s.models, r.model))
    case (Some(provider), Some(model)) =>
      if model.provider != r.provider then Fail(WrongProvider)
      else if !Registry.Within(r.capabilities, model.capabilities) then Fail(CapabilityMissing)
      else if Registry.Selectable(s, r.model, r.capabilities).Err? then Fail(NotSelectable)
      else if r.adapter !in adapters then Fail(AdapterNotFound)
      else if adapters[r.adapter].family != provider.family then Fail(AdapterFamily)
      else if adapters[r.adapter].provider.Some? && adapters[r.adapter].provider.value != r.provider
      then Fail(AdapterProvider)
      else if !Registry.Within(r.capabilities, adapters[r.adapter].capabilities) then Fail(CapabilityMissing)
      else Pass
    case _ => Fail(NotFound)
  }

  function CheckRuns(runs: seq<PlannedRun>, s: Registry.Snapshot, adapters: map<string, Adapter>)
    : (outcome: Outcome<Error>)
    ensures outcome.Pass? <==> forall r | r in runs :: CheckRun(r, s, adapters).Pass?
  {
    if runs == [] then Pass
    else
      match CheckRun(runs[0], s, adapters)
      case Fail(e) => Fail(e)
      case Pass => CheckRuns(runs[1..], s, adapters)
  }

  function CheckAgainstRegistry(p: Plan, s: Registry.Snapshot, adapters: map<string, Adapter>): Outcome<Error> {
    if (p.lineage.registryId, p.lineage.registryRevision) != (s.registryId, s.revision) then Fail(RegistryMismatch)
    else CheckRuns(p.runs, s, adapters)
  }

  /** Once a plan also passes the registry check, no two of its runs name one model. */
  lemma RegistryMakesModelsDiffer(p: Plan, s: Registry.Snapshot, adapters: map<string, Adapter>,
                                  a: PlannedRun, b: PlannedRun)
    requires CheckPlan(p).Pass? && CheckAgainstRegistry(p, s, adapters).Pass?
    requires a in p.runs && b in p.runs && a != b
    ensures a.model != b.model
  {
  }

  // ---- authorized runs

  /** What a context, a decision, a permit and an approval must say about a planned run. */
  datatype RunIntent = RunIntent(
    selectionRequestId: Id, tenant: Id, resource: string, action: Selection.Action, purpose: string,
    registryId: Id, registryRevision: nat, provider: string, model: string)

  function PlannedIntent(r: PlannedRun): RunIntent {
    RunIntent(r.selectionRequestId, r.lineage.tenant, r.lineage.resource, r.action, r.purpose,
              r.lineage.registryId, r.lineage.registryRevision, r.provider, r.model)
  }

  function RunIntentOf(i: Selection.Intent): RunIntent {
    RunIntent(i.requestId, i.tenant, i.resource, i.action, i.purpose, i.registryId, i.registryRevision,
              i.provider, i.model)
  }

  function ApprovedRunIntent(a: Selection.ApprovedIntent): RunIntent {
    RunIntent(a.requestId, a.tenant, a.resource, a.action, a.purpose, a.registryId, a.registryRevision,
              a.provider, a.model)
  }

  datatype AuthorizedRun = AuthorizedRun(
    runId: Id, lineage: Lineage, action: Selection.Action, purpose: string, ordinal: nat, required: bool,
    provider: string, model: string, adapter: string, selectionRequestId: Id, decisionId: Id,
    approvalId: Option<Id>, permitId: Id, invocationRequestId: Id, authorizedAt: int)

  /** The planned runs with a given identity. */
  function Matching(runs: seq<PlannedRun>, id: Id): (r: seq<PlannedRun>)
    ensures forall x :: x in r <==> x in runs && x.runId == id
  {
    if runs == [] then [] else (if runs[0].runId == id then [runs[0]] else []) + Matching(runs[1..], id)
  }

  lemma {:induction false} MatchingNone(runs: seq<PlannedRun>, id: Id)
    requires forall x | x in runs :: x.runId != id
    ensures Matching(runs, id) == []
  {
    if runs != [] {
      MatchingNone(runs[1..], id);
    }
  }

  lemma {:induction false} MatchingOne(runs: seq<PlannedRun>, r: PlannedRun)
    requires r in runs && Distinct(RunIds(runs))
    ensures Matching(runs, r.runId) == [r]
  {
    var ids := RunIds(runs);
    assert RunIds(runs[1..]) == ids[1..];
    if r == runs[0] {
      assert forall x | x in runs[1..] :: x.runId != r.runId by {
        forall i | 0 < i < |runs| ensures runs[i].runId != r.runId {
          assert ids[0] != ids[i];
        }
      }
      MatchingNone(runs[1..], r.runId);
    } else {
      assert r in runs[1..];
      var i :| 0 <= i < |runs[1..]| && runs[1..][i] == r;
      assert ids[0] != ids[i + 1];
      MatchingOne(runs[1..], r);
    }
  }

  lemma PlanRunIdsDistinct(p: Plan)
    requires CheckPlan(p).Pass?
    ensures Distinct(RunIds(p.runs))
  {
  }

  function BindAuthorization(p: Plan, r: PlannedRun, c: Selection.Context, d: Selection.Decision, permit: Selection.Permit,
                             s: Registry.Snapshot, adapters: map<string, Adapter>, at: int,
                             approval: Option<Selection.Approval>): Result<AuthorizedRun, Error> {
    match CheckAgainstRegistry(p, s, adapters)
    case Fail(e) => Err(e)
    case Pass =>
      if Matching(p.runs, r.runId) != [r] then Err(PlanMismatch)
      else if RunIntentOf(c.intent) != PlannedIntent(r) then Err(AuthorizationMismatch)
      else if RunIntentOf(d.intent) != PlannedIntent(r) then Err(AuthorizationMismatch)
      else if RunIntentOf(permit.scope) != PlannedIntent(r) then Err(PermitMismatch)
      else if permit.decisionId != d.id then Err(PermitMismatch)
      else if at < permit.issuedAt then Err(PermitMismatch)
      else if permit.expiresAt.Some? && at >= permit.expiresAt.value then Err(PermitMismatch)
      else if permit.approvalId.None? && approval.Some? then Err(AuthorizationMismatch)
      else if permit.approvalId.Some?
              && (approval.None? || ApprovedRunIntent(approval.value.approves) != PlannedIntent(r)
                  || approval.value.approves.decisionId != d.id || approval.value.id != permit.approvalId.value)
      then Err(AuthorizationMismatch)
      else Ok(AuthorizedRun(
                r.runId, r.lineage, r.action, r.purpose, r.ordinal, r.required, r.provider, r.model, r.adapter,
                r.selectionRequestId, d.id, permit.approvalId, permit.id, r.invocationRequestId, at))
  }

  // ---- results

  /** A provider's normalized answer. */
  datatype Normalized = Normalized(
    permitId: Id, invocationId: Id, selectionRequestId: Id, decisionId: Id, approvalId: Option<Id>,
    registryId: Id, registryRevision: nat, provider: string, model: string, adapter: string,
    succeeded: bool, completedAt: int, content: string)

  datatype RunResult = RunResult(
    resultId: Id, runId: Id, lineage: Lineage, ordinal: nat, provider: string, model: string, adapter: string,
    permitId: Id, invocationId: Id, decisionId: Id, approvalId: Option<Id>, succeeded: bool,
    normalized: Normalized, completedAt: int)

  /** What the plan expects an authorized run to repeat. */
  predicate FollowsPlan(a: AuthorizedRun, p: Plan, r: PlannedRun) {
    && a.lineage == p.lineage && a.runId == r.runId && a.ordinal == r.ordinal && a.provider == r.provider
    && a.model == r.model && a.adapter == r.adapter && a.selectionRequestId == r.selectionRequestId
    && a.invocationRequestId == r.invocationRequestId
  }

  predicate AnswersRun(n: Normalized, a: AuthorizedRun) {
    && n.permitId == a.permitId && n.invocationId == a.invocationRequestId
    && n.selectionRequestId == a.selectionRequestId && n.decisionId == a.decisionId && n.approvalId == a.approvalId
    && n.registryId == a.lineage.registryId && n.registryRevision == a.lineage.registryRevision
    && n.provider == a.provider && n.model == a.model && n.adapter == a.adapter
  }

  function BindResult(p: Plan, a: AuthorizedRun, n: Normalized, resultId: Id, completedAt: int): Result<RunResult, Error> {
    var planned := Matching(p.runs, a.runId);
    if |planned| != 1 then Err(PlanMismatch)
    else if !FollowsPlan(a, p, planned[0]) then Err(PlanMismatch)
    else if !AnswersRun(n, a) then Err(ResultMismatch)
    else if completedAt != n.completedAt then Err(ResultMismatch)
    else
      var r := planned[0];
      Ok(RunResult(resultId, r.runId, r.lineage.(planId := p.lineage.planId), r.ordinal, r.provider, r.model, r.adapter,
                   a.permitId, n.invocationId, a.decisionId, a.approvalId, n.succeeded, n, completedAt))
  }

  /** The stages agree: an authorization bound to a valid plan is never refused as foreign to
      that plan when its result is bound; only the answer itself can fail to match. */
  lemma AuthorizedRunsBind(p: Plan, r: PlannedRun, c: Selection.Context, d: Selection.Decision, permit: Selection.Permit,
                           s: Registry.Snapshot, adapters: map<string, Adapter>, at: int,
                           approval: Option<Selection.Approval>, n: Normalized, resultId: Id, completedAt: int)
    requires CheckPlan(p).Pass?
    requires BindAuthorization(p, r, c, d, permit, s, adapters, at, approval).Ok?
    ensures var a := BindAuthorization(p, r, c, d, permit, s, adapters, at, approval).value;
            BindResult(p, a, n, resultId, completedAt).Ok? <==> AnswersRun(n, a) && completedAt == n.completedAt
    ensures Selection.CheckInvocation(permit, at).Pass?
  {
    hide CheckPlan, CheckAgainstRegistry, AnswersRun, PlannedIntent, RunIntentOf, ApprovedRunIntent, Matching;
    assert r in [r];
    RunsHaveLineage(p, r);
  }

  lemma RunsHaveLineage(p: Plan, r: PlannedRun)
    requires CheckPlan(p).Pass?
    ensures r in p.runs ==> r.lineage == p.lineage
  {
    assert r in p.runs ==> (r.lineage, r.action, r.purpose) == (p.lineage, p.action, p.purpose);
  }

  // ---- the bindings on the fields

  /** The intent is the one planned for the run. */
  predicate IntendsRun(i: Selection.Intent, r: PlannedRun) {
    && i.requestId == r.selectionRequestId && i.tenant == r.lineage.tenant && i.resource == r.lineage.resource
    && i.action == r.action && i.purpose == r.purpose && i.registryId == r.lineage.registryId
    && i.registryRevision == r.lineage.registryRevision && i.provider == r.provider && i.model == r.model
  }

  /** The approval is the permit's, for this decision about this run. */
  predicate ApprovesRun(a: Selection.Approval, approvalId: Id, decisionId: Id, r: PlannedRun) {
    var i := a.approves;
    && a.id == approvalId && i.decisionId == decisionId
    && i.requestId == r.selectionRequestId && i.tenant == r.lineage.tenant && i.resource == r.lineage.resource
    && i.action == r.action && i.purpose == r.purpose && i.registryId == r.lineage.registryId
    && i.registryRevision == r.lineage.registryRevision && i.provider == r.provider && i.model == r.model
  }

  /** An authorization is bound exactly to a run of the plan that the registry supports, when
      context, decision and permit all intend that run, the permit is the decision's and in
      force, and its approval is the one supplied. */
  lemma AuthorizationBindsIff(p: Plan, r: PlannedRun, c: Selection.Context, d: Selection.Decision, permit: Selection.Permit,
                              s: Registry.Snapshot, adapters: map<string, Adapter>, at: int,
                              approval: Option<Selection.Approval>)
    requires CheckPlan(p).Pass?
    ensures var outcome := CheckAgainstRegistry(p, s, adapters)
              .Check(r in p.runs, PlanMismatch)
              .Check(IntendsRun(c.intent, r), AuthorizationMismatch)
              .Check(IntendsRun(d.intent, r), AuthorizationMismatch)
              .Check(IntendsRun(permit.scope, r), PermitMismatch)
              .Check(permit.decisionId == d.id, PermitMismatch)
              .Check(permit.issuedAt <= at, PermitMismatch)
              .Check(permit.expiresAt.Some? ==> at < permit.expiresAt.value, PermitMismatch)
              .Check(permit.approvalId.Some? <==> approval.Some?, AuthorizationMismatch)
              .Check(approval.Some? && permit.approvalId.Some? ==>
                       ApprovesRun(approval.value, permit.approvalId.value, d.id, r), AuthorizationMismatch);
            BindAuthorization(p, r, c, d, permit, s, adapters, at, approval) ==
            match outcome
            case Fail(e) => Err(e)
            case Pass =>
              Ok(AuthorizedRun(r.runId, r.lineage, r.action, r.purpose, r.ordinal, r.required, r.provider, r.model,
                               r.adapter, r.selectionRequestId, d.id, permit.approvalId, permit.id,
                               r.invocationRequestId, at))
  {
    hide CheckPlan, CheckAgainstRegistry, Matching, PlannedIntent, RunIntentOf, IntendsRun, RunIds, ApprovedRunIntent,
      ApprovesRun;
    PlanRunIdsDistinct(p);
    if r in p.runs {
      MatchingOne(p.runs, r);
    } else {
      assert r in [r];
    }
    IntentsAgree(c.intent, r);
    IntentsAgree(d.intent, r);
    IntentsAgree(permit.scope, r);
    if approval.Some? && permit.approvalId.Some? {
      ApprovalsAgree(approval.value, permit.approvalId.value, d.id, r);
    }
  }

  lemma IntentsAgree(i: Selection.Intent, r: PlannedRun)
    ensures RunIntentOf(i) == PlannedIntent(r) <==> IntendsRun(i, r)
  {
  }

  lemma ApprovalsAgree(a: Selection.Approval, approvalId: Id, decisionId: Id, r: PlannedRun)
    ensures ApprovesRun(a, approvalId, decisionId, r) <==>
            ApprovedRunIntent(a.approves) == PlannedIntent(r) && a.approves.decisionId == decisionId && a.id == approvalId
  {
  }

  /** A result of a bound authorization is bound exactly when the answer repeats the permit,
      the decision, the approval and the planned run, and completed when it says. */
  lemma ResultBindsIff(p: Plan, r: PlannedRun, c: Selection.Context, d: Selection.Decision, permit: Selection.Permit,
                       s: Registry.Snapshot, adapters: map<string, Adapter>, at: int,
                       approval: Option<Selection.Approval>, n: Normalized, resultId: Id, completedAt: int)
    requires CheckPlan(p).Pass?
    requires BindAuthorization(p, r, c, d, permit, s, adapters, at, approval).Ok?
    ensures var a := BindAuthorization(p, r, c, d, permit, s, adapters, at, approval).value;
            var x := BindResult(p, a, n, resultId, completedAt);
            && (x.Ok? <==>
                  && n.permitId == permit.id && n.decisionId == d.id && n.approvalId == permit.approvalId
                  && n.invocationId == r.invocationRequestId && n.selectionRequestId == r.selectionRequestId
                  && n.registryId == r.lineage.registryId && n.registryRevision == r.lineage.registryRevision
                  && n.provider == r.provider && n.model == r.model && n.adapter == r.adapter
                  && n.completedAt == completedAt)
            && (x.Err? ==> x.error == ResultMismatch)
            && (x.Ok? ==>
                  x.value == RunResult(resultId, r.runId, r.lineage, r.ordinal, r.provider, r.model, r.adapter, permit.id,
                                       r.invocationRequestId, d.id, permit.approvalId, n.succeeded, n, completedAt))
  {
    AuthorizedRunsBind(p, r, c, d, permit, s, adapters, at, approval, n, resultId, completedAt);
    AuthorizationBindsIff(p, r, c, d, permit, s, adapters, at, approval);
    RunsHaveLineage(p, r);
    PlanRunIdsDistinct(p);
    MatchingOne(p.runs, r);
    hide BindAuthorization, CheckPlan, CheckAgainstRegistry, Matching, IntendsRun, RunIds;
  }

  /** The run's model and provider are registered, belong together and can be selected, and
      its adapter serves that provider's family with the capabilities planned. */
  predicate Supports(s: Registry.Snapshot, adapters: map<string, Adapter>, r: PlannedRun) {
    var m, v := Registry.FindModel(s.models, r.model), Registry.FindProvider(s.providers, r.provider);
    && m.Some? && v.Some? && m.value.provider == r.provider
    && m.value.status == Registry.Active && v.value.status == Registry.Active
    && Registry.CanonicalCapabilities(r.capabilities)
    && (forall x | x in r.capabilities :: x in m.value.capabilities)
    && r.adapter in adapters
    && adapters[r.adapter].family == v.value.family
    && (adapters[r.adapter].provider.Some? ==> adapters[r.adapter].provider.value == r.provider)
    && (forall x | x in r.capabilities :: x in adapters[r.adapter].capabilities)
  }

  /** One run's check, with the error of the first demand missed. */
  lemma RunSupportIsExact(r: PlannedRun, s: Registry.Snapshot, adapters: map<string, Adapter>)
    ensures var m, v := Registry.FindModel(s.models, r.model), Registry.FindProvider(s.providers, r.provider);
            var found, adapted := m.Some? && v.Some?, r.adapter in adapters;
            CheckRun(r, s, adapters) ==
            Outcome<Error>.Pass
            .Check(found, NotFound)
            .Check(found && m.value.provider == r.provider, WrongProvider)
            .Check(found && forall x | x in r.capabilities :: x in m.value.capabilities, CapabilityMissing)
            .Check(found && m.value.status == Registry.Active && v.value.status == Registry.Active
                   && Registry.CanonicalCapabilities(r.capabilities), NotSelectable)
            .Check(adapted, AdapterNotFound)
            .Check(adapted && found && adapters[r.adapter].family == v.value.family, AdapterFamily)
            .Check(adapted && (adapters[r.adapter].provider.Some? ==> adapters[r.adapter].provider.value == r.provider),
                   AdapterProvider)
            .Check(adapted && forall x | x in r.capabilities :: x in adapters[r.adapter].capabilities, CapabilityMissing)
  {
    hide Registry.FindModel, Registry.FindProvider, Registry.Selectable, Registry.CanonicalCapabilities;
    SelectableRun(r, s);
  }

  /** Once model and provider are found to belong together, only status and form are left. */
  lemma SelectableRun(r: PlannedRun, s: Registry.Snapshot)
    ensures var m, v := Registry.FindModel(s.models, r.model), Registry.FindProvider(s.providers, r.provider);
            m.Some? && v.Some? && m.value.provider == r.provider
            && Registry.Within(r.capabilities, m.value.capabilities) ==>
              (Registry.Selectable(s, r.model, r.capabilities).Ok? <==>
                 m.value.status == Registry.Active && v.value.status == Registry.Active
                 && Registry.CanonicalCapabilities(r.capabilities))
  {
    hide Registry.FindModel, Registry.FindProvider;
  }

  /** The plan is accepted exactly when it names this registry and every run is supported. */
  lemma RegistrySupportsIff(p: Plan, s: Registry.Snapshot, adapters: map<string, Adapter>)
    ensures CheckAgainstRegistry(p, s, adapters).Pass? <==>
            && p.lineage.registryId == s.registryId && p.lineage.registryRevision == s.revision
            && forall r | r in p.runs :: Supports(s, adapters, r)
    ensures p.lineage.registryId != s.registryId || p.lineage.registryRevision != s.revision ==>
              CheckAgainstRegistry(p, s, adapters) == Fail(RegistryMismatch)
  {
    forall r | r in p.runs ensures CheckRun(r, s, adapters).Pass? <==> Supports(s, adapters, r) {
    }
    hide CheckRun, Supports;
  }

  /** A result that some binding to the plan produced. */
  ghost predicate Bound(p: Plan, x: RunResult) {
    exists a, n, id, at :: BindResult(p, a, n, id, at) == Ok(x)
  }

  /** The planned run a bound result answers. */
  lemma BoundRun(p: Plan, x: RunResult) returns (r: PlannedRun)
    requires CheckPlan(p).Pass? && Bound(p, x)
    ensures r in p.runs && r.runId == x.runId && Source(r) == (x.provider, x.model) && x.lineage == p.lineage
    ensures x.succeeded <==> x.normalized.succeeded
  {
    var a, n, id, at :| BindResult(p, a, n, id, at) == Ok(x);
    r := Matching(p.runs, a.runId)[0];
    assert r in Matching(p.runs, a.runId);
    assert (r.lineage, r.action, r.purpose) == (p.lineage, p.action, p.purpose);
  }

  // ---- collections

  datatype Status = Complete | Partial | Failed

  datatype Collection = Collection(
    id: Id, planId: Id, tenant: Id, registryId: Id, registryRevision: nat, expected: seq<Id>, required: seq<Id>,
    minimumRequiredRuns: nat, results: seq<RunResult>, status: Status, expectedCount: int, successfulCount: int,
    failedCount: int, missingCount: int, collectedAt: int)

  function ResultIds(xs: seq<RunResult>): (ids: seq<Id>)
    ensures |ids| == |xs| && forall i | 0 <= i < |ids| :: ids[i] == xs[i].runId
  {
    MapSeq((x: RunResult) => x.runId, xs)
  }

  /** How many results have the given status. */
  function Count(xs: seq<RunResult>, succeeded: bool): (n: nat)
    ensures n <= |xs|
  {
    if xs == [] then 0 else (if xs[0].succeeded == succeeded then 1 else 0) + Count(xs[1..], succeeded)
  }

  /** The count is the multiplicity of the status among the results'. */
  lemma {:induction false} CountIsMultiplicity(xs: seq<RunResult>, succeeded: bool)
    ensures Count(xs, succeeded) == multiset(MapSeq((x: RunResult) => x.succeeded, xs))[succeeded]
  {
    if xs != [] {
      var f := (x: RunResult) => x.succeeded;
      CountIsMultiplicity(xs[1..], succeeded);
      assert MapSeq(f, xs) == [xs[0].succeeded] + MapSeq(f, xs[1..]);
    }
  }

  lemma {:induction false} CountsAddUp(xs: seq<RunResult>)
    ensures Count(xs, true) + Count(xs, false) == |xs|
  {
    if xs != [] {
      CountsAddUp(xs[1..]);
    }
  }

  /** The collection's own validator, within the declared bounds of its fields. */
  predicate ValidCollection(c: Collection) {
    var ids := ResultIds(c.results);
    && 2 <= |c.expected| <= MAX_RUNS && 2 <= |c.required| <= MAX_RUNS && |c.results| <= MAX_RUNS
    && 2 <= c.minimumRequiredRuns <= MAX_RUNS
    && Distinct(ids)
    && Elements(c.required) <= Elements(c.expected)
    && Elements(ids) <= Elements(c.expected)
    && c.expectedCount == |c.expected|
    && c.successfulCount == Count(c.results, true)
    && c.failedCount == Count(c.results, false)
    && c.missingCount == |c.expected| - |c.results| >= 0
    && c.status == if !(Elements(c.required) <= Elements(ids)) then Partial
                   else if Count(c.results, true) >= c.minimumRequiredRuns then Complete
                   else Failed
  }

  function ResultFor(xs: seq<RunResult>, id: Id): (x: Option<RunResult>)
    ensures x.Some? ==> x.value in xs && x.value.runId == id
    ensures x.None? ==> forall y | y in xs :: y.runId != id
  {
    if xs == [] then None else if xs[0].runId == id then Some(xs[0]) else ResultFor(xs[1..], id)
  }

  /** The results in the order of the plan. */
  function InPlanOrder(runs: seq<PlannedRun>, xs: seq<RunResult>): (r: seq<RunResult>)
    ensures |r| <= |runs|
  {
    if runs == [] then []
    else
      var x := ResultFor(xs, runs[0].runId);
      (if x.Some? then [x.value] else []) + InPlanOrder(runs[1..], xs)
  }

  lemma {:induction false} InPlanOrderAppend(runs: seq<PlannedRun>, r: PlannedRun, xs: seq<RunResult>)
    ensures InPlanOrder(runs + [r], xs) == InPlanOrder(runs, xs)
              + (if ResultFor(xs, r.runId).Some? then [ResultFor(xs, r.runId).value] else [])
  {
    hide ResultFor;
    if runs == [] {
      assert runs + [r] == [r] && InPlanOrder([], xs) == [];
    } else {
      assert (runs + [r])[1..] == runs[1..] + [r];
      InPlanOrderAppend(runs[1..], r, xs);
    }
  }

  predicate MatchesPlan(p: Plan, x: RunResult) {
    x.lineage == p.lineage
  }

  function Collected(p: Plan, xs: seq<RunResult>, id: Id, at: int): Result<Collection, Error> {
    if !Distinct(ResultIds(xs)) then Err(DuplicateResult)
    else if !(Elements(ResultIds(xs)) <= Elements(RunIds(p.runs))) then Err(UnknownRun)
    else if exists x | x in xs :: !MatchesPlan(p, x) then Err(ResultLineage)
    else
      var ordered := InPlanOrder(p.runs, xs);
      var required := RunIds(Required(p.runs));
      var status :=
        if Elements(required) <= Elements(ResultIds(xs)) then
          if Count(ordered, true) >= p.minimumRequiredRuns then Complete else Failed
        else Partial;
      var c := Collection(
                 id, p.lineage.planId, p.lineage.tenant, p.lineage.registryId, p.lineage.registryRevision,
                 RunIds(p.runs), required, p.minimumRequiredRuns, ordered, status, |p.runs|,
                 Count(ordered, true), Count(ordered, false), |p.runs| - |ordered|, at);
      if ValidCollection(c) then Ok(c) else Err(InvalidCollection)
  }

  /** The table of the builder holds exactly the results seen, under their run identities. */
  predicate Tabulates(table: map<Id, RunResult>, xs: seq<RunResult>) {
    && table.Keys == Elements(ResultIds(xs))
    && forall id | id in table :: ResultFor(xs, id) == Some(table[id])
  }

  /** The loop that fills the table; a run seen twice is refused. */
  method Tabulate(xs: seq<RunResult>) returns (table: Option<map<Id, RunResult>>)
    ensures table.Some? <==> Distinct(ResultIds(xs))
    ensures table.Some? ==> Tabulates(table.value, xs)
  {
    hide Tabulates, ResultFor, Distinct;
    var filled: map<Id, RunResult> := map[];
    TabulatesNone();
    for i := 0 to |xs|
      invariant Tabulates(filled, xs[..i]) && Distinct(ResultIds(xs[..i]))
    {
      TabulatesOneMore(filled, xs, i);
      if xs[i].runId in filled {
        return None;
      }
      filled := filled[xs[i].runId := xs[i]];
    }
    assert xs[..|xs|] == xs;
    return Some(filled);
  }

  /** The results of the table in the order of the plan. */
  method ListInPlanOrder(p: Plan, table: map<Id, RunResult>, ghost xs: seq<RunResult>) returns (ordered: seq<RunResult>)
    requires Tabulates(table, xs)
    ensures ordered == InPlanOrder(p.runs, xs)
  {
    TableAnswers(table, xs);
    ordered := [];
    for i := 0 to |p.runs|
      invariant ordered == InPlanOrder(p.runs[..i], xs)
    {
      hide Tabulates, ResultFor, InPlanOrder;
      assert p.runs[..i + 1] == p.runs[..i] + [p.runs[i]];
      InPlanOrderAppend(p.runs[..i], p.runs[i], xs);
      if p.runs[i].runId in table {
        ordered := ordered + [table[p.runs[i].runId]];
      }
    }
    assert p.runs[..|p.runs|] == p.runs;
  }

  method CreateRunCollection(p: Plan, xs: seq<RunResult>, id: Id, at: int) returns (r: Result<Collection, Error>)
    ensures r == Collected(p, xs, id, at)
  {
    hide Tabulates, ResultFor, InPlanOrder, ValidCollection, Distinct, Elements, ResultIds, RunIds, Required, Count,
      MatchesPlan;
    var filled := Tabulate(xs);
    if filled.None? {
      return Err(DuplicateResult);
    }
    var table := filled.value;
    TableHoldsAll(table, xs);
    var expected := RunIds(p.runs);
    if !(table.Keys <= Elements(expected)) {
      return Err(UnknownRun);
    }
    if exists x | x in table.Values :: !MatchesPlan(p, x) {
      return Err(ResultLineage);
    }
    var ordered := ListInPlanOrder(p, table, xs);
    var required := RunIds(Required(p.runs));
    var status := Partial;
    if Elements(required) <= table.Keys {
      status := if Count(ordered, true) >= p.minimumRequiredRuns then Complete else Failed;
    }
    var c := Collection(
      id, p.lineage.planId, p.lineage.tenant, p.lineage.registryId, p.lineage.registryRevision,
      expected, required, p.minimumRequiredRuns, ordered, status, |p.runs|,
      Count(ordered, true), Count(ordered, false), |p.runs| - |ordered|, at);
    return if ValidCollection(c) then Ok(c) else Err(InvalidCollection);
  }

  lemma TabulatesNone()
    ensures Tabulates(map[], []) && Distinct(ResultIds([]))
  {
  }

  lemma TabulatesOneMore(table: map<Id, RunResult>, xs: seq<RunResult>, i: nat)
    requires i < |xs| && Tabulates(table, xs[..i]) && Distinct(ResultIds(xs[..i]))
    ensures xs[i].runId in table ==> !Distinct(ResultIds(xs))
    ensures xs[i].runId !in table ==>
              Tabulates(table[xs[i].runId := xs[i]], xs[..i + 1]) && Distinct(ResultIds(xs[..i + 1]))
  {
    var before, ids := xs[..i], ResultIds(xs);
    assert ResultIds(before) == ids[..i];
    assert xs[..i + 1] == before + [xs[i]];
    assert ResultIds(xs[..i + 1]) == ids[..i] + [xs[i].runId];
    if xs[i].runId in table {
      assert xs[i].runId in ids[..i];
    } else {
      assert xs[i].runId !in Elements(ids[..i]);
      forall id | id in table || id == xs[i].runId {
        ResultForAppend(before, xs[i], id);
      }
    }
  }

  lemma {:induction false} ResultForAppend(xs: seq<RunResult>, x: RunResult, id: Id)
    ensures ResultFor(xs + [x], id) == if ResultFor(xs, id).Some? then ResultFor(xs, id)
                                       else if x.runId == id then Some(x) else None
  {
    if xs == [] {
      assert xs + [x] == [x];
    } else {
      assert (xs + [x])[1..] == xs[1..] + [x];
      ResultForAppend(xs[1..], x, id);
    }
  }

  lemma TableAnswers(table: map<Id, RunResult>, xs: seq<RunResult>)
    requires Tabulates(table, xs)
    ensures forall id :: ResultFor(xs, id) == if id in table then Some(table[id]) else None
  {
    forall id ensures id in table <==> ResultFor(xs, id).Some? {
      if ResultFor(xs, id).Some? {
        var i :| 0 <= i < |xs| && xs[i] == ResultFor(xs, id).value;
        assert ResultIds(xs)[i] == id;
      }
    }
  }

  lemma TableHoldsAll(table: map<Id, RunResult>, xs: seq<RunResult>)
    requires Tabulates(table, xs) && Distinct(ResultIds(xs))
    ensures table.Keys == Elements(ResultIds(xs))
    ensures forall x :: x in table.Values <==> x in xs
  {
    TableAnswers(table, xs);
    forall x | x in xs ensures x in table.Values {
      ResultIsFound(xs, x);
      assert table[x.runId] == x;
    }
  }

  lemma ResultIsFound(xs: seq<RunResult>, x: RunResult)
    requires Distinct(ResultIds(xs)) && x in xs
    ensures ResultFor(xs, x.runId) == Some(x)
  {
  }
}
