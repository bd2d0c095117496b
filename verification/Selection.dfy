/** Policy evaluation for one selected model, the authorization that turns a decision into a
    permit, and the call boundary that checks the permit. Instants are integers. */
module Selection {
  import opened Common
  import Registry
  import Sorting

  datatype Action =
    | InternalSummary | InternalAnalysis | ExternalModelProcessing | ExternalTransmission
    | ToolInvocation | ConnectorRead | ConnectorWrite

  datatype Target = ModelTarget | ToolTarget | McpToolTarget | ConnectorTarget

  datatype Boundary = InternalBoundary | PrivateManaged | External

  /** The lineage a context and a decision must agree on. */
  datatype Intent = Intent(
    requestId: Id, tenant: Id, resource: string, purpose: string, classification: Classification, target: Target,
    boundary: Boundary, registryId: Id, registryRevision: nat, model: string, provider: string, action: Action)

  datatype Context = Context(intent: Intent, capabilities: seq<Registry.Capability>, details: string)

  datatype Policy = Policy(
    revision: string, tenant: Id, actions: seq<Action>, purposes: seq<string>, resources: seq<string>,
    classifications: seq<Classification>, models: seq<string>, providers: seq<string>,
    externalForbidden: seq<Classification>, humanApproval: seq<Action>)

  // ---- policy evaluation

  datatype AuthOutcome = Allow | Deny | RequiresHumanApproval

  datatype Reason =
    | ActionNotPermitted | AllowedByPolicy | ClassificationNotPermitted | ExternalProviderForbidden
    | HumanApprovalRequired | ModelNotSelectable | PolicyInputInvalid | ProviderNotSelectable
    | PurposeNotPermitted | RequiredCapabilityMissing | ResourceNotPermitted | TenantPolicyDeny

  /** All reasons in the order of their text. */
  const REASONS: seq<Reason> := [
    ActionNotPermitted, AllowedByPolicy, ClassificationNotPermitted, ExternalProviderForbidden,
    HumanApprovalRequired, ModelNotSelectable, PolicyInputInvalid, ProviderNotSelectable,
    PurposeNotPermitted, RequiredCapabilityMissing, ResourceNotPermitted, TenantPolicyDeny]

  function ReasonRank(r: Reason): (k: nat)
    ensures k < |REASONS| && REASONS[k] == r
  {
    match r
    case ActionNotPermitted => 0
    case AllowedByPolicy => 1
    case ClassificationNotPermitted => 2
    case ExternalProviderForbidden => 3
    case HumanApprovalRequired => 4
    case ModelNotSelectable => 5
    case PolicyInputInvalid => 6
    case ProviderNotSelectable => 7
    case PurposeNotPermitted => 8
    case RequiredCapabilityMissing => 9
    case ResourceNotPermitted => 10
    case TenantPolicyDeny => 11
  }

  /** Strictly ascending, which is what being canonical and unique amounts to. */
  predicate CanonicalReasons(rs: seq<Reason>) {
    forall i, j | 0 <= i < j < |rs| :: ReasonRank(rs[i]) < ReasonRank(rs[j])
  }

  /** A set of reasons in text order, up to the k-th reason there is. */
  function Listed(reasons: set<Reason>, k: nat): (rs: seq<Reason>)
    requires k <= |REASONS|
    ensures CanonicalReasons(rs)
    ensures forall r :: r in rs <==> r in reasons && ReasonRank(r) < k
  {
    if k == 0 then []
    else
      var rs := Listed(reasons, k - 1);
      var r := REASONS[k - 1];
      assert ReasonRank(r) == k - 1;
      if r in reasons then rs + [r] else rs
  }

  datatype Decision = Decision(
    id: Id, intent: Intent, outcome: AuthOutcome, reasons: seq<Reason>, approvalRequired: bool,
    policyRevision: string, decidedAt: int)

  /** The decision's own validator. */
  predicate DecisionValid(d: Decision) {
    d.reasons != [] && |d.reasons| <= 20 && CanonicalReasons(d.reasons)
    && (d.approvalRequired <==> d.outcome.RequiresHumanApproval?)
  }

  /** What each reason says about the context and the policy alone. */
  predicate Breached(r: Reason, c: Context, s: Registry.Snapshot, p: Policy) {
    match r
    case TenantPolicyDeny => c.intent.tenant != p.tenant
    case PolicyInputInvalid => (c.intent.registryId, c.intent.registryRevision) != (s.registryId, s.revision)
    case ActionNotPermitted => c.intent.action !in p.actions
    case PurposeNotPermitted => c.intent.purpose !in p.purposes
    case ResourceNotPermitted => c.intent.resource !in p.resources
    case ClassificationNotPermitted => c.intent.classification !in p.classifications
    case ExternalProviderForbidden => c.intent.boundary.External? && c.intent.classification in p.externalForbidden
    case ModelNotSelectable => c.intent.model !in p.models
    case ProviderNotSelectable => c.intent.provider !in p.providers
    case _ => false
  }

  /** The reason a lookup in the registry adds, if any. */
  function LookupReason(c: Context, s: Registry.Snapshot): Option<Reason> {
    match Registry.Selectable(s, c.intent.model, c.capabilities)
    case Ok(model) => if model.provider != c.intent.provider then Some(ProviderNotSelectable) else None
    case Err(e) =>
      match e
      case ProviderNotFound => Some(ProviderNotSelectable)
      case CapabilitiesNotCanonical => Some(RequiredCapabilityMissing)
      case CapabilityMissing => Some(RequiredCapabilityMissing)
      case _ => Some(ModelNotSelectable)
  }

  /** The violation each denying reason stands for. */
  predicate Violated(r: Reason, c: Context, s: Registry.Snapshot, p: Policy) {
    Breached(r, c, s, p) || LookupReason(c, s) == Some(r)
  }

  function Violations(c: Context, s: Registry.Snapshot, p: Policy): set<Reason> {
    set r | r in REASONS && Violated(r, c, s, p)
  }

  function Decide(c: Context, s: Registry.Snapshot, p: Policy, id: Id, decidedAt: int): Decision {
    var violations := Violations(c, s, p);
    if violations != {} then
      Decision(id, c.intent, Deny, Listed(violations, |REASONS|), false, p.revision, decidedAt)
    else if c.intent.action in p.humanApproval then
      Decision(id, c.intent, RequiresHumanApproval, [HumanApprovalRequired], true, p.revision, decidedAt)
    else Decision(id, c.intent, Allow, [AllowedByPolicy], false, p.revision, decidedAt)
  }

  /** One branch of the evaluation: a reason added when its condition holds. */
  function AddIf(reasons: set<Reason>, condition: bool, r: Reason): (added: set<Reason>)
    ensures forall x :: x in added <==> x in reasons || (condition && x == r)
  {
    if condition then reasons + {r} else reasons
  }

  /** The breaches of the identity of the tenant, the registry, the action and the purpose. */
  method CollectScopeBreaches(c: Context, s: Registry.Snapshot, p: Policy) returns (reasons: set<Reason>)
    ensures forall r :: r in reasons <==> Breached(r, c, s, p) && r in SCOPE_REASONS
  {
    hide AddIf;
    reasons := {};
    reasons := AddIf(reasons, c.intent.tenant != p.tenant, TenantPolicyDeny);
    reasons := AddIf(reasons, c.intent.registryId != s.registryId || c.intent.registryRevision != s.revision,
                     PolicyInputInvalid);
    reasons := AddIf(reasons, c.intent.action !in p.actions, ActionNotPermitted);
    reasons := AddIf(reasons, c.intent.purpose !in p.purposes, PurposeNotPermitted);
  }

  const SCOPE_REASONS := {TenantPolicyDeny, PolicyInputInvalid, ActionNotPermitted, PurposeNotPermitted}

  /** The breaches of what is selected: resource, classification, model, provider, boundary. */
  method CollectTargetBreaches(c: Context, s: Registry.Snapshot, p: Policy, before: set<Reason>)
    returns (reasons: set<Reason>)
    ensures forall r :: r in reasons <==> r in before || (Breached(r, c, s, p) && r !in SCOPE_REASONS)
  {
    hide AddIf;
    reasons := before;
    reasons := AddIf(reasons, c.intent.resource !in p.resources, ResourceNotPermitted);
    reasons := AddIf(reasons, c.intent.classification !in p.classifications, ClassificationNotPermitted);
    reasons := AddIf(reasons, c.intent.model !in p.models, ModelNotSelectable);
    reasons := AddIf(reasons, c.intent.provider !in p.providers, ProviderNotSelectable);
    reasons := AddIf(reasons, c.intent.boundary.External? && c.intent.classification in p.externalForbidden,
                     ExternalProviderForbidden);
  }

  method CollectBreaches(c: Context, s: Registry.Snapshot, p: Policy) returns (reasons: set<Reason>)
    ensures forall r :: r in reasons <==> Breached(r, c, s, p)
  {
    hide Breached, SCOPE_REASONS;
    reasons := CollectScopeBreaches(c, s, p);
    reasons := CollectTargetBreaches(c, s, p, reasons);
  }

  method Evaluate(c: Context, s: Registry.Snapshot, p: Policy, id: Id, decidedAt: int) returns (d: Decision)
    ensures d == Decide(c, s, p, id, decidedAt)
  {
    hide Breached, Registry.Selectable, Listed, Violations;
    var reasons := CollectBreaches(c, s, p);
    match Registry.Selectable(s, c.intent.model, c.capabilities) {
      case Ok(model) =>
        if model.provider != c.intent.provider {
          reasons := reasons + {ProviderNotSelectable};
        }
      case Err(ProviderNotFound) =>
        reasons := reasons + {ProviderNotSelectable};
      case Err(CapabilitiesNotCanonical) =>
        reasons := reasons + {RequiredCapabilityMissing};
      case Err(CapabilityMissing) =>
        reasons := reasons + {RequiredCapabilityMissing};
      case Err(_) =>
        reasons := reasons + {ModelNotSelectable};
    }
    CollectedAre(reasons, c, s, p);
    var outcome := Deny;
    if reasons == {} {
      if c.intent.action in p.humanApproval {
        outcome := RequiresHumanApproval;
        reasons := {HumanApprovalRequired};
      } else {
        outcome := Allow;
        reasons := {AllowedByPolicy};
      }
    }
    SingletonsListed();
    d := Decision(id, c.intent, outcome, Listed(reasons, |REASONS|), outcome.RequiresHumanApproval?,
                  p.revision, decidedAt);
  }

  lemma CollectedAre(reasons: set<Reason>, c: Context, s: Registry.Snapshot, p: Policy)
    requires forall r :: r in reasons <==> Violated(r, c, s, p)
    ensures reasons == Violations(c, s, p)
  {
  }

  lemma RankOfListed(k: nat)
    requires k < |REASONS|
    ensures ReasonRank(REASONS[k]) == k
  {
  }

  lemma {:induction false} SingletonListed(r: Reason, k: nat)
    requires k <= |REASONS|
    ensures Listed({r}, k) == if ReasonRank(r) < k then [r] else []
  {
    if k > 0 {
      SingletonListed(r, k - 1);
      RankOfListed(k - 1);
      hide ReasonRank, CanonicalReasons;
    }
  }

  lemma SingletonsListed()
    ensures Listed({HumanApprovalRequired}, |REASONS|) == [HumanApprovalRequired]
    ensures Listed({AllowedByPolicy}, |REASONS|) == [AllowedByPolicy]
  {
    SingletonListed(HumanApprovalRequired, |REASONS|);
    SingletonListed(AllowedByPolicy, |REASONS|);
    hide Listed;
  }

  /** Every decision is one its validator accepts, and it denies exactly when some check is
      violated, listing precisely the violated ones. */
  lemma DecisionIsExact(c: Context, s: Registry.Snapshot, p: Policy, id: Id, decidedAt: int)
    ensures var d := Decide(c, s, p, id, decidedAt);
            && DecisionValid(d)
            && (d.outcome.Deny? <==> exists r :: Violated(r, c, s, p))
            && (d.outcome.Deny? ==> forall r :: r in d.reasons <==> Violated(r, c, s, p))
  {
    var violations := Violations(c, s, p);
    forall r ensures r in violations <==> Violated(r, c, s, p) {
      assert REASONS[ReasonRank(r)] == r;
    }
    hide Violated;
    var listed := Listed(violations, |REASONS|);
    CanonicalIsShort(listed);
    if violations != {} {
      var r :| r in violations;
      assert r in listed;
    }
  }

  lemma {:induction false} CanonicalIsShort(rs: seq<Reason>)
    requires CanonicalReasons(rs)
    ensures |rs| <= 12
    ensures rs != [] ==> |rs| <= ReasonRank(rs[|rs| - 1]) + 1
  {
    if rs != [] {
      CanonicalIsShort(rs[..|rs| - 1]);
      assert ReasonRank(rs[|rs| - 1]) < 12;
      hide ReasonRank;
    }
  }

  // ---- what a policy permits, on the fields

  /** What the request asks for is on the policy's lists, and nothing confidential leaves. */
  predicate PolicyPermits(i: Intent, p: Policy) {
    && i.tenant == p.tenant && i.action in p.actions && i.purpose in p.purposes && i.resource in p.resources
    && i.classification in p.classifications && i.model in p.models && i.provider in p.providers
    && !(i.boundary == External && i.classification in p.externalForbidden)
  }

  /** The registry offers the model from that very provider, with the capabilities asked for. */
  predicate RegistryOffers(i: Intent, s: Registry.Snapshot, capabilities: seq<Registry.Capability>) {
    var m := Registry.FindModel(s.models, i.model);
    && m.Some? && m.value.provider == i.provider && m.value.status == Registry.Active
    && var v := Registry.FindProvider(s.providers, i.provider);
    && v.Some? && v.value.status == Registry.Active
    && Registry.CanonicalCapabilities(capabilities) && forall x | x in capabilities :: x in m.value.capabilities
  }

  predicate Permissible(c: Context, s: Registry.Snapshot, p: Policy) {
    && PolicyPermits(c.intent, p)
    && c.intent.registryId == s.registryId && c.intent.registryRevision == s.revision
    && RegistryOffers(c.intent, s, c.capabilities)
  }

  lemma UnviolatedIffPermissible(c: Context, s: Registry.Snapshot, p: Policy)
    ensures (forall r :: !Violated(r, c, s, p)) <==> Permissible(c, s, p)
  {
    UnbreachedIff(c, s, p);
    OfferedIff(c, s);
    hide Breached, LookupReason, PolicyPermits, RegistryOffers;
    forall r ensures Breached(r, c, s, p) ==> Violated(r, c, s, p) { }
    assert LookupReason(c, s).Some? ==> Violated(LookupReason(c, s).value, c, s, p);
  }

  lemma UnbreachedIff(c: Context, s: Registry.Snapshot, p: Policy)
    ensures (forall r :: !Breached(r, c, s, p)) <==>
            PolicyPermits(c.intent, p) && c.intent.registryId == s.registryId && c.intent.registryRevision == s.revision
  {
    assert (forall r :: !Breached(r, c, s, p)) ==>
        !Breached(TenantPolicyDeny, c, s, p) && !Breached(PolicyInputInvalid, c, s, p)
        && !Breached(ActionNotPermitted, c, s, p) && !Breached(PurposeNotPermitted, c, s, p)
        && !Breached(ResourceNotPermitted, c, s, p) && !Breached(ClassificationNotPermitted, c, s, p)
        && !Breached(ExternalProviderForbidden, c, s, p) && !Breached(ModelNotSelectable, c, s, p)
        && !Breached(ProviderNotSelectable, c, s, p);
  }

  lemma OfferedIff(c: Context, s: Registry.Snapshot)
    ensures LookupReason(c, s).None? <==> RegistryOffers(c.intent, s, c.capabilities)
  {
  }

  /** A decision denies exactly what is not permissible; what is permissible waits for a
      human exactly when the policy says so of its action, and each says only that. */
  lemma OutcomeIff(c: Context, s: Registry.Snapshot, p: Policy, id: Id, decidedAt: int)
    ensures var d := Decide(c, s, p, id, decidedAt);
            && d.outcome == (if !Permissible(c, s, p) then Deny
                             else if c.intent.action in p.humanApproval then RequiresHumanApproval else Allow)
            && (d.outcome == RequiresHumanApproval ==> d.reasons == [HumanApprovalRequired] && d.approvalRequired)
            && (d.outcome == Allow ==> d.reasons == [AllowedByPolicy] && !d.approvalRequired)
            && d.id == id && d.intent == c.intent && d.policyRevision == p.revision && d.decidedAt == decidedAt
  {
    DecisionIsExact(c, s, p, id, decidedAt);
    UnviolatedIffPermissible(c, s, p);
    hide Violated, Permissible, Listed;
  }

  /** Which reasons a denial lists, condition by condition: first those about the request. */
  lemma ScopeReasonsAreExact(c: Context, s: Registry.Snapshot, p: Policy, id: Id, decidedAt: int)
    requires !Permissible(c, s, p)
    ensures var i, listed := c.intent, Decide(c, s, p, id, decidedAt).reasons;
            && (TenantPolicyDeny in listed <==> i.tenant != p.tenant)
            && (PolicyInputInvalid in listed <==> i.registryId != s.registryId || i.registryRevision != s.revision)
            && (ActionNotPermitted in listed <==> i.action !in p.actions)
            && (PurposeNotPermitted in listed <==> i.purpose !in p.purposes)
            && (ResourceNotPermitted in listed <==> i.resource !in p.resources)
            && (ClassificationNotPermitted in listed <==> i.classification !in p.classifications)
            && (ExternalProviderForbidden in listed <==> i.boundary == External && i.classification in p.externalForbidden)
            && AllowedByPolicy !in listed && HumanApprovalRequired !in listed
  {
    OutcomeIff(c, s, p, id, decidedAt);
    DecisionIsExact(c, s, p, id, decidedAt);
    hide Decide, Permissible, DecisionValid, Registry.Selectable;
  }

  /** What the registry's lookup finds: the model, its provider, whether both are active, and
      whether the model can do what is asked. */
  datatype Finding = Finding(
    model: Option<Registry.Model>, provider: Option<Registry.Provider>, active: bool, capable: bool)

  function Find(c: Context, s: Registry.Snapshot): Finding {
    var m := Registry.FindModel(s.models, c.intent.model);
    var v := if m.Some? then Registry.FindProvider(s.providers, m.value.provider) else None;
    Finding(m, v, v.Some? && v.value.status == Registry.Active && m.value.status == Registry.Active,
            m.Some? && Registry.CanonicalCapabilities(c.capabilities)
            && forall x | x in c.capabilities :: x in m.value.capabilities)
  }

  lemma LookupReasonIsExact(c: Context, s: Registry.Snapshot)
    ensures var f := Find(c, s);
            LookupReason(c, s) ==
            if f.model.None? then Some(ModelNotSelectable)
            else if f.provider.None? then Some(ProviderNotSelectable)
            else if !f.active then Some(ModelNotSelectable)
            else if !f.capable then Some(RequiredCapabilityMissing)
            else if f.model.value.provider != c.intent.provider then Some(ProviderNotSelectable)
            else None
  {
  }

  /** Then those about the model, its provider and their capabilities. */
  lemma TargetReasonsAreExact(c: Context, s: Registry.Snapshot, p: Policy, id: Id, decidedAt: int)
    requires !Permissible(c, s, p)
    ensures var listed, f := Decide(c, s, p, id, decidedAt).reasons, Find(c, s);
            && (ModelNotSelectable in listed <==>
                  c.intent.model !in p.models || f.model.None? || (f.provider.Some? && !f.active))
            && (RequiredCapabilityMissing in listed <==> f.active && !f.capable)
            && (ProviderNotSelectable in listed <==>
                  || c.intent.provider !in p.providers || (f.model.Some? && f.provider.None?)
                  || (f.active && f.capable && f.model.value.provider != c.intent.provider))
  {
    OutcomeIff(c, s, p, id, decidedAt);
    DecisionIsExact(c, s, p, id, decidedAt);
    LookupReasonIsExact(c, s);
    hide Decide, Permissible, DecisionValid, LookupReason, Registry.FindModel, Registry.FindProvider;
  }

  function ReasonText(r: Reason): string {
    match r
    case ActionNotPermitted => "action_not_permitted"
    case AllowedByPolicy => "allowed_by_policy"
    case ClassificationNotPermitted => "classification_not_permitted"
    case ExternalProviderForbidden => "external_provider_forbidden"
    case HumanApprovalRequired => "human_approval_required"
    case ModelNotSelectable => "model_not_selectable"
    case PolicyInputInvalid => "policy_input_invalid"
    case ProviderNotSelectable => "provider_not_selectable"
    case PurposeNotPermitted => "purpose_not_permitted"
    case RequiredCapabilityMissing => "required_capability_missing"
    case ResourceNotPermitted => "resource_not_permitted"
    case TenantPolicyDeny => "tenant_policy_deny"
  }

  /** Where the text of each reason first differs from the one before it. */
  const REASON_DIFFERENCES: seq<nat> := [0, 1, 0, 0, 0, 0, 0, 1, 1, 0, 2, 0]

  lemma EarlyReasonsAscend(k: nat)
    requires 0 < k < 6
    ensures Sorting.AscendsAt(ReasonText(REASONS[k - 1]), ReasonText(REASONS[k]), REASON_DIFFERENCES[k])
  {
  }

  lemma LateReasonsAscend(k: nat)
    requires 6 <= k < |REASONS|
    ensures Sorting.AscendsAt(ReasonText(REASONS[k - 1]), ReasonText(REASONS[k]), REASON_DIFFERENCES[k])
  {
  }

  /** The canonical order of reasons is the order of their text. */
  lemma ReasonsFollowText(a: Reason, b: Reason)
    ensures ReasonRank(a) <= ReasonRank(b) <==> Sorting.StringLe(ReasonText(a), ReasonText(b))
  {
    hide ReasonText, ReasonRank;
    var texts := seq(|REASONS|, i requires 0 <= i < |REASONS| => ReasonText(REASONS[i]));
    forall k | 0 < k < |REASONS| ensures Sorting.AscendsAt(texts[k - 1], texts[k], REASON_DIFFERENCES[k]) {
      if k < 6 { EarlyReasonsAscend(k); } else { LateReasonsAscend(k); }
    }
    Sorting.PositionsFollowTexts(texts, REASON_DIFFERENCES, ReasonRank(a), ReasonRank(b));
  }

  // ---- approvals

  /** The part of the lineage an approval names, with the decision it approves. */
  datatype ApprovedIntent = ApprovedIntent(
    requestId: Id, tenant: Id, resource: string, action: Action, purpose: string, model: string, provider: string,
    registryId: Id, registryRevision: nat, decisionId: Id)

  function ToApprove(i: Intent, decisionId: Id): ApprovedIntent {
    ApprovedIntent(i.requestId, i.tenant, i.resource, i.action, i.purpose, i.model, i.provider,
                   i.registryId, i.registryRevision, decisionId)
  }

  datatype Approval = Approval(
    id: Id, approves: ApprovedIntent, granted: bool, approvedAt: int, expiresAt: Option<int>, details: string)

  datatype Error =
    | IntentMismatch | RegistryMismatch | NotSelectable(error: Registry.Error) | ProviderMismatch | PolicyDenied
    | ApprovalRequired | ApprovalMismatch | NotGranted | NotYetEffective | ApprovalExpired
    | OutlivesApproval | ApprovalNotApplicable | InvalidPermit | TooEarly | PermitExpired

  function CheckApproval(c: Context, d: Decision, a: Approval, at: int): Outcome<Error> {
    if d.intent != c.intent then Fail(ApprovalMismatch)
    else if a.approves != ToApprove(c.intent, d.id) then Fail(ApprovalMismatch)
    else if !a.granted then Fail(NotGranted)
    else if at < a.approvedAt then Fail(NotYetEffective)
    else if a.expiresAt.Some? && at >= a.expiresAt.value then Fail(ApprovalExpired)
    else Pass
  }

  // ---- permits

  /** `scope` is the intent without its target type, which a permit does not carry. */
  datatype Permit = Permit(
    id: Id, scope: Intent, decisionId: Id, outcome: AuthOutcome, reasons: seq<Reason>, policyRevision: string,
    approvalId: Option<Id>, issuedAt: int, expiresAt: Option<int>)

  /** The permit's own validator. */
  predicate PermitValid(p: Permit) {
    && (p.expiresAt.Some? ==> p.issuedAt < p.expiresAt.value)
    && !p.outcome.Deny?
    && (p.approvalId.Some? <==> p.outcome.RequiresHumanApproval?)
  }

  /** The expiry a permit gets: the approval's own when it has one, else the requested one. */
  function Expiry(requested: Option<int>, approval: Option<Approval>): Option<int> {
    if approval.Some? && approval.value.expiresAt.Some? then approval.value.expiresAt else requested
  }

  function IssuePermit(c: Context, d: Decision, permitId: Id, issuedAt: int, expiresAt: Option<int>,
                       approval: Option<Approval>): Result<Permit, Error> {
    var permit := Permit(permitId, c.intent.(target := ModelTarget), d.id, d.outcome, d.reasons, d.policyRevision,
                         if approval.Some? then Some(approval.value.id) else None,
                         issuedAt, Expiry(expiresAt, approval));
    if PermitValid(permit) then Ok(permit) else Err(InvalidPermit)
  }

  function Authorize(c: Context, d: Decision, s: Registry.Snapshot, permitId: Id, issuedAt: int,
                     expiresAt: Option<int>, approval: Option<Approval>): Result<Permit, Error> {
    if d.intent != c.intent then Err(IntentMismatch)
    else if (s.registryId, s.revision) != (c.intent.registryId, c.intent.registryRevision) then Err(RegistryMismatch)
    else
      match Registry.Selectable(s, c.intent.model, c.capabilities)
      case Err(e) => Err(NotSelectable(e))
      case Ok(model) =>
        if model.provider != c.intent.provider then Err(ProviderMismatch)
        else if d.outcome.Deny? then Err(PolicyDenied)
        else if d.outcome.RequiresHumanApproval? then
          if approval.None? then Err(ApprovalRequired)
          else
            match CheckApproval(c, d, approval.value, issuedAt)
            case Fail(e) => Err(e)
            case Pass =>
              if approval.value.expiresAt.Some? && expiresAt.Some? && expiresAt.value > approval.value.expiresAt.value
              then Err(OutlivesApproval)
              else IssuePermit(c, d, permitId, issuedAt, expiresAt, approval)
        else if approval.Some? then Err(ApprovalNotApplicable)
        else IssuePermit(c, d, permitId, issuedAt, expiresAt, approval)
  }

  predicate LineageError(e: Error) {
    e in {IntentMismatch, RegistryMismatch, ProviderMismatch, PolicyDenied} || e.NotSelectable?
  }

  /** An approval that fits: granted for this very intent and decision, in force when the
      permit is issued, and no shorter than a requested expiry. */
  predicate Fits(a: Approval, c: Context, decisionId: Id, issuedAt: int, expiresAt: Option<int>) {
    && a.approves == ToApprove(c.intent, decisionId) && a.granted && a.approvedAt <= issuedAt
    && (a.expiresAt.Some? ==> issuedAt < a.expiresAt.value
                              && (expiresAt.Some? ==> expiresAt.value <= a.expiresAt.value))
  }

  /** Authorization agrees with the policy that decided: on the same context and registry it
      fails a lineage, registry or selectability check exactly when the policy denies;
      otherwise it issues a permit exactly when the approval and the times fit. */
  lemma AuthorizationAgreesWithPolicy(c: Context, s: Registry.Snapshot, p: Policy, decisionId: Id, decidedAt: int,
                                      permitId: Id, issuedAt: int, expiresAt: Option<int>, approval: Option<Approval>)
    ensures var d := Decide(c, s, p, decisionId, decidedAt);
            var r := Authorize(c, d, s, permitId, issuedAt, expiresAt, approval);
            && (r.Err? && LineageError(r.error) <==> d.outcome.Deny?)
            && (r.Ok? <==>
                  || (d.outcome.Allow? && approval.None? && (expiresAt.Some? ==> issuedAt < expiresAt.value))
                  || (d.outcome.RequiresHumanApproval? && approval.Some?
                      && Fits(approval.value, c, decisionId, issuedAt, expiresAt)
                      && (approval.value.expiresAt.None? && expiresAt.Some? ==> issuedAt < expiresAt.value)))
  {
    var d := Decide(c, s, p, decisionId, decidedAt);
    DecisionIsExact(c, s, p, decisionId, decidedAt);
    assert d.intent == c.intent && d.id == decisionId;
    hide Decide, Violated, DecisionValid, Registry.Selectable, Listed, LookupReason;
    if !d.outcome.Deny? {
      UnviolatedIsSelectable(c, s, p);
    }
  }

  lemma UnviolatedIsSelectable(c: Context, s: Registry.Snapshot, p: Policy)
    requires forall r :: !Violated(r, c, s, p)
    ensures (s.registryId, s.revision) == (c.intent.registryId, c.intent.registryRevision)
    ensures var r := Registry.Selectable(s, c.intent.model, c.capabilities);
            r.Ok? && r.value.provider == c.intent.provider
  {
    hide Registry.Selectable;
    assert !Violated(PolicyInputInvalid, c, s, p);
    assert LookupReason(c, s).Some? ==> Violated(LookupReason(c, s).value, c, s, p);
  }

  /** The approval names the intent and the decision, field by field. */
  predicate Names(a: ApprovedIntent, i: Intent, decisionId: Id) {
    && a.requestId == i.requestId && a.tenant == i.tenant && a.resource == i.resource && a.action == i.action
    && a.purpose == i.purpose && a.model == i.model && a.provider == i.provider
    && a.registryId == i.registryId && a.registryRevision == i.registryRevision && a.decisionId == decisionId
  }

  /** Exactly which requests end in a permit, from the policy to the permit: what is not
      permissible never does, and an action kept for humans only under an approval of it. */
  lemma PermitIff(c: Context, s: Registry.Snapshot, p: Policy, decisionId: Id, decidedAt: int, permitId: Id,
                  issuedAt: int, expiresAt: Option<int>, approval: Option<Approval>)
    ensures Authorize(c, Decide(c, s, p, decisionId, decidedAt), s, permitId, issuedAt, expiresAt, approval).Ok? <==>
            && Permissible(c, s, p)
            && (c.intent.action in p.humanApproval <==> approval.Some?)
            && (approval.Some? ==>
                  var a := approval.value;
                  && Names(a.approves, c.intent, decisionId) && a.granted && a.approvedAt <= issuedAt
                  && (a.expiresAt.Some? ==>
                        issuedAt < a.expiresAt.value && (expiresAt.Some? ==> expiresAt.value <= a.expiresAt.value)))
            && (expiresAt.Some? && (approval.None? || approval.value.expiresAt.None?) ==> issuedAt < expiresAt.value)
  {
    AuthorizationAgreesWithPolicy(c, s, p, decisionId, decidedAt, permitId, issuedAt, expiresAt, approval);
    OutcomeIff(c, s, p, decisionId, decidedAt);
    hide Authorize, Decide, Permissible;
  }

  /** Authorization of any decision whatever, with the error of the first demand missed and
      every field of the permit. */
  lemma AuthorizeIsExact(c: Context, d: Decision, s: Registry.Snapshot, permitId: Id, issuedAt: int,
                         expiresAt: Option<int>, approval: Option<Approval>)
    ensures var i, forHumans := c.intent, d.outcome == RequiresHumanApproval;
            var m := Registry.Selectable(s, i.model, c.capabilities);
            var ends := if approval.Some? then approval.value.expiresAt else None;
            var expiry := if ends.Some? then ends else expiresAt;
            var outcome := Outcome<Error>.Pass
              .Check(d.intent == i, IntentMismatch)
              .Check(s.registryId == i.registryId && s.revision == i.registryRevision, RegistryMismatch)
              .Check(m.Ok?, NotSelectable(if m.Err? then m.error else Registry.ModelNotFound))
              .Check(m.Ok? && m.value.provider == i.provider, ProviderMismatch)
              .Check(d.outcome != Deny, PolicyDenied)
              .Check(forHumans ==> approval.Some?, ApprovalRequired)
              .Check(approval.Some? ==> forHumans, ApprovalNotApplicable)
              .Check(approval.Some? ==> Names(approval.value.approves, i, d.id), ApprovalMismatch)
              .Check(approval.Some? ==> approval.value.granted, NotGranted)
              .Check(approval.Some? ==> approval.value.approvedAt <= issuedAt, NotYetEffective)
              .Check(ends.Some? ==> issuedAt < ends.value, ApprovalExpired)
              .Check(ends.Some? && expiresAt.Some? ==> expiresAt.value <= ends.value, OutlivesApproval)
              .Check(expiry.Some? ==> issuedAt < expiry.value, InvalidPermit);
            Authorize(c, d, s, permitId, issuedAt, expiresAt, approval) ==
            match outcome
            case Fail(e) => Err(e)
            case Pass =>
              Ok(Permit(permitId, i.(target := ModelTarget), d.id, d.outcome, d.reasons, d.policyRevision,
                        if approval.Some? then Some(approval.value.id) else None, issuedAt, expiry))
  {
    hide Registry.Selectable;
  }

  /** The provider-neutral call boundary. */
  function CheckInvocation(p: Permit, at: int): Outcome<Error> {
    if at < p.issuedAt then Fail(TooEarly)
    else if p.expiresAt.Some? && at >= p.expiresAt.value then Fail(PermitExpired)
    else Pass
  }

  /** Whatever decision a permit came from, it names that decision's intent, a model the
      registry lets be selected, and an outcome that does not deny. */
  lemma PermitsAreEarned(c: Context, d: Decision, s: Registry.Snapshot, permitId: Id, issuedAt: int,
                         expiresAt: Option<int>, approval: Option<Approval>)
    ensures var r := Authorize(c, d, s, permitId, issuedAt, expiresAt, approval);
            r.Ok? ==>
              && PermitValid(r.value) && r.value.scope == d.intent.(target := ModelTarget) && r.value.decisionId == d.id
              && Registry.Selectable(s, d.intent.model, c.capabilities).Ok?
              && r.value.issuedAt == issuedAt
              && r.value.expiresAt == Expiry(expiresAt, approval)
              && (r.value.approvalId.Some? <==> approval.Some?)
              && (approval.Some? ==> Fits(approval.value, c, d.id, issuedAt, expiresAt))
  {
  }

  /** Every instant at which an approved permit reaches the invoker lies in the approval's
      window, and in the requested one unless the approval's expiry replaced it. */
  lemma InvocationsStayInTheWindow(c: Context, d: Decision, s: Registry.Snapshot, permitId: Id, issuedAt: int,
                                   expiresAt: Option<int>, approval: Approval, at: int)
    requires var r := Authorize(c, d, s, permitId, issuedAt, expiresAt, Some(approval));
             r.Ok? && CheckInvocation(r.value, at).Pass?
    ensures approval.approvedAt <= issuedAt <= at
    ensures approval.expiresAt.Some? ==> at < approval.expiresAt.value
    ensures approval.expiresAt.None? && expiresAt.Some? ==> at < expiresAt.value
  {
  }

  /** A permit never ends before the expiry requested for it, and ends later exactly when the
      approval has an expiry of its own that differs: a shorter request is not kept. */
  lemma RequestedExpiryReplacedIff(c: Context, d: Decision, s: Registry.Snapshot, permitId: Id, issuedAt: int,
                                   requested: int, approval: Option<Approval>)
    requires Authorize(c, d, s, permitId, issuedAt, Some(requested), approval).Ok?
    ensures var p := Authorize(c, d, s, permitId, issuedAt, Some(requested), approval).value;
            && p.expiresAt.Some? && requested <= p.expiresAt.value
            && (requested < p.expiresAt.value <==>
                  approval.Some? && approval.value.expiresAt.Some? && approval.value.expiresAt.value != requested)
  {
    PermitsAreEarned(c, d, s, permitId, issuedAt, Some(requested), approval);
    hide Authorize;
  }

  /** One such permit: requested until 20, approved until 30, and so valid at 25. */
  lemma ShorterRequestIsNotKept()
    ensures var i := Intent(1, 2, "r", "p", Internal, ModelTarget, InternalBoundary, 3, 1, "m", "v", ToolInvocation);
            var c := Context(i, [], "");
            var d := Decision(4, i, RequiresHumanApproval, [HumanApprovalRequired], true, "x", 5);
            var s := Registry.Snapshot(3, 1, [Registry.Provider("v", "f", Registry.Active, [], "")],
                                       [Registry.Model("m", "v", "n", "1", "1", Registry.Active, [], "")], 0);
            var a := Approval(6, ToApprove(i, 4), true, 8, Some(30), "");
            var r := Authorize(c, d, s, 7, 10, Some(20), Some(a));
            r.Ok? && r.value.expiresAt == Some(30) && CheckInvocation(r.value, 25).Pass?
  {
  }
}
