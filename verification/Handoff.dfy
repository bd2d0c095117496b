/** From a consensus decision package to the secretary's handoff package. Texts such as the
    conflict type or a reviewer's role are kept as strings; instants are integers. */
module Handoff {
  import opened Common
  import opened Sorting
  import CrossValidation
  import Consensus

  // ---- decision packages

  datatype Conflict = Conflict(
    id: Id, assessmentId: Id, planId: Id, claimIds: seq<Id>, recordIds: seq<Id>, conflictType: string,
    reasonCodes: seq<string>, classification: Classification)

  datatype Review = Review(
    id: Id, assessmentId: Id, planId: Id, reviewType: string, reviewerRole: string,
    reasonCodes: seq<string>, classification: Classification)

  datatype Decision = Decision(
    id: Id, assessmentId: Id, planId: Id, status: Consensus.Status, candidateIds: seq<Id>, conflictIds: seq<Id>,
    reviewIds: seq<Id>, classification: Classification)

  datatype Package = Package(
    id: Id, specification: Consensus.Specification, candidates: seq<Consensus.Candidate>, conflicts: seq<Conflict>,
    reviews: seq<Review>, decision: Decision, classification: Classification, createdAt: int)

  datatype Error =
    | DuplicateItem | ClassificationTooLow | UnresolvedReference | InvalidPackage
    | LineageMismatch | ConflictsMissing | ReviewsMissing | PublicationEligible | PublicationNotIneligible
    | InvalidHandoff | CandidateMismatch | ConflictMismatch | ReviewMismatch | UnknownCandidate
    | ConflictsNotRetained | ReviewsNotRetained | InvalidResult | ApprovalNotRequired | InvalidRequest
    | ApprovalAbsent | ApprovalUnexpected | InvalidFinal

  function CandidateIds(cs: seq<Consensus.Candidate>): (ids: seq<Id>)
    ensures |ids| == |cs| && forall i | 0 <= i < |ids| :: ids[i] == cs[i].id
  {
    MapSeq((c: Consensus.Candidate) => c.id, cs)
  }

  function ConflictIds(cs: seq<Conflict>): (ids: seq<Id>)
    ensures |ids| == |cs| && forall i | 0 <= i < |ids| :: ids[i] == cs[i].id
  {
    MapSeq((c: Conflict) => c.id, cs)
  }

  function ReviewIds(rs: seq<Review>): (ids: seq<Id>)
    ensures |ids| == |rs| && forall i | 0 <= i < |ids| :: ids[i] == rs[i].id
  {
    MapSeq((r: Review) => r.id, rs)
  }

  /** Nothing in a package is classified above it. */
  predicate Dominates(c: Classification, p: Package) {
    && (forall x | x in p.candidates :: NotLower(c, x.classification))
    && (forall x | x in p.conflicts :: NotLower(c, x.classification))
    && (forall x | x in p.reviews :: NotLower(c, x.classification))
    && NotLower(c, p.decision.classification)
  }

  /** The package's own validator. */
  predicate ValidPackage(p: Package) {
    var plan, assessment := p.specification.lineage.planId, p.specification.assessmentId;
    && CanonicalIds(CandidateIds(p.candidates)) && CanonicalIds(ConflictIds(p.conflicts))
    && CanonicalIds(ReviewIds(p.reviews))
    && (forall x | x in p.candidates :: x.lineage.planId == plan && x.assessmentId == assessment)
    && (forall x | x in p.conflicts :: x.planId == plan && x.assessmentId == assessment)
    && (forall x | x in p.reviews :: x.planId == plan && x.assessmentId == assessment)
    && p.decision.planId == plan && p.decision.assessmentId == assessment
    && Dominates(p.classification, p)
  }

  predicate CandidateLe(a: Consensus.Candidate, b: Consensus.Candidate) {
    a.id <= b.id
  }

  predicate ConflictLe(a: Conflict, b: Conflict) {
    a.id <= b.id
  }

  predicate ReviewLe(a: Review, b: Review) {
    a.id <= b.id
  }

  function CreatePackage(s: Consensus.Specification, cs: seq<Consensus.Candidate>, fs: seq<Conflict>, rs: seq<Review>,
                         d: Decision, id: Id, classification: Classification, at: int): Result<Package, Error> {
    var p := Package(id, s, Sort(CandidateLe, cs), Sort(ConflictLe, fs), Sort(ReviewLe, rs), d, classification, at);
    if !Distinct(CandidateIds(p.candidates)) then Err(DuplicateItem)
    else if exists x | x in p.candidates :: !NotLower(classification, x.classification) then Err(ClassificationTooLow)
    else if !Distinct(ConflictIds(p.conflicts)) then Err(DuplicateItem)
    else if exists x | x in p.conflicts :: !NotLower(classification, x.classification) then Err(ClassificationTooLow)
    else if !Distinct(ReviewIds(p.reviews)) then Err(DuplicateItem)
    else if exists x | x in p.reviews :: !NotLower(classification, x.classification) then Err(ClassificationTooLow)
    else if !NotLower(classification, d.classification) then Err(ClassificationTooLow)
    else if !(Elements(d.candidateIds) <= Elements(CandidateIds(p.candidates))
              && Elements(d.conflictIds) <= Elements(ConflictIds(p.conflicts))
              && Elements(d.reviewIds) <= Elements(ReviewIds(p.reviews)))
    then Err(UnresolvedReference)
    else if !ValidPackage(p) then Err(InvalidPackage)
    else Ok(p)
  }

  lemma PackageIds(cs: seq<Consensus.Candidate>, fs: seq<Conflict>, rs: seq<Review>)
    ensures var ids, sorted := CandidateIds(cs), CandidateIds(Sort(CandidateLe, cs));
            (Distinct(ids) <==> Distinct(sorted)) && (Distinct(ids) ==> CanonicalIds(sorted))
            && Elements(sorted) == Elements(ids)
    ensures var ids, sorted := ConflictIds(fs), ConflictIds(Sort(ConflictLe, fs));
            (Distinct(ids) <==> Distinct(sorted)) && (Distinct(ids) ==> CanonicalIds(sorted))
            && Elements(sorted) == Elements(ids)
    ensures var ids, sorted := ReviewIds(rs), ReviewIds(Sort(ReviewLe, rs));
            (Distinct(ids) <==> Distinct(sorted)) && (Distinct(ids) ==> CanonicalIds(sorted))
            && Elements(sorted) == Elements(ids)
  {
    var candidateId := (c: Consensus.Candidate) => c.id;
    var conflictId := (c: Conflict) => c.id;
    var reviewId := (r: Review) => r.id;
    hide Sort, Distinct, CanonicalIds;
    SortedByIdIsCanonical(candidateId, CandidateLe, cs);
    SortedByIdIsCanonical(conflictId, ConflictLe, fs);
    SortedByIdIsCanonical(reviewId, ReviewLe, rs);
    assert forall s :: MapSeq(candidateId, s) == CandidateIds(s);
    assert forall s :: MapSeq(conflictId, s) == ConflictIds(s);
    assert forall s :: MapSeq(reviewId, s) == ReviewIds(s);
  }

  /** The items and the decision of a package belong to its assessment. */
  predicate Belongs(s: Consensus.Specification, cs: seq<Consensus.Candidate>, fs: seq<Conflict>, rs: seq<Review>,
                    d: Decision) {
    var plan, assessment := s.lineage.planId, s.assessmentId;
    && (forall x | x in cs :: x.lineage.planId == plan && x.assessmentId == assessment)
    && (forall x | x in fs :: x.planId == plan && x.assessmentId == assessment)
    && (forall x | x in rs :: x.planId == plan && x.assessmentId == assessment)
    && d.planId == plan && d.assessmentId == assessment
  }

  /** A package is created exactly from unrepeated items of one assessment, none classified
      above it, among which the decision's references resolve; it then holds just those items
      in canonical order and passes its own validator. */
  lemma PackageSucceedsIff(s: Consensus.Specification, cs: seq<Consensus.Candidate>, fs: seq<Conflict>,
                           rs: seq<Review>, d: Decision, id: Id, classification: Classification, at: int)
    ensures var r := CreatePackage(s, cs, fs, rs, d, id, classification, at);
            && (r.Ok? <==>
                  && Distinct(CandidateIds(cs)) && Distinct(ConflictIds(fs)) && Distinct(ReviewIds(rs))
                  && (forall x | x in cs :: NotLower(classification, x.classification))
                  && (forall x | x in fs :: NotLower(classification, x.classification))
                  && (forall x | x in rs :: NotLower(classification, x.classification))
                  && NotLower(classification, d.classification)
                  && Elements(d.candidateIds) <= Elements(CandidateIds(cs))
                  && Elements(d.conflictIds) <= Elements(ConflictIds(fs))
                  && Elements(d.reviewIds) <= Elements(ReviewIds(rs))
                  && Belongs(s, cs, fs, rs, d))
            && (r.Ok? ==> ValidPackage(r.value) && r.value.decision == d
                          && multiset(r.value.candidates) == multiset(cs) && multiset(r.value.conflicts) == multiset(fs)
                          && multiset(r.value.reviews) == multiset(rs))
  {
    hide Sort, Distinct, Elements, CanonicalIds, CandidateIds, ConflictIds, ReviewIds, NotLower, CandidateLe,
      ConflictLe, ReviewLe;
    PackageIds(cs, fs, rs);
    SameElements(cs, Sort(CandidateLe, cs));
    SameElements(fs, Sort(ConflictLe, fs));
    SameElements(rs, Sort(ReviewLe, rs));
  }

  // ---- the handoff

  datatype Status =
    | Ready | RequiresManualReview | BlockedByConflict | BlockedByIncompleteComparison
    | BlockedByInsufficientEvidence | NotEligible

  datatype Eligibility = Eligible | Ineligible | RequiresSeparateApproval

  function MapStatus(p: Package, allowIntegration: bool): Status {
    if p.reviews != [] || p.decision.status.ManualReviewRequired? then RequiresManualReview
    else if p.conflicts != [] || p.decision.status.Conflicting? then BlockedByConflict
    else if p.decision.status.IncompleteComparison? then BlockedByIncompleteComparison
    else if p.decision.status.InsufficientEvidence? then BlockedByInsufficientEvidence
    else if p.decision.status.Agreed? || p.decision.status.PartiallyAgreed? then
      if allowIntegration then Ready else NotEligible
    else NotEligible
  }

  datatype SecretaryHandoff = SecretaryHandoff(
    id: Id, packageId: Id, assessmentId: Id, lineage: CrossValidation.Lineage, consensusStatus: Consensus.Status,
    decisionId: Id, status: Status, candidateIds: seq<Id>, conflictIds: seq<Id>, reviewIds: seq<Id>,
    classification: Classification, publication: Eligibility, external: Eligibility, createdAt: int)

  datatype HandoffRequest = HandoffRequest(
    id: Id, allowIntegration: bool, publication: Eligibility, external: Eligibility,
    classification: Classification, createdAt: int)

  const MAX_ITEMS := 500

  predicate Canonical(ids: seq<Id>) {
    |ids| <= MAX_ITEMS && CanonicalIds(ids)
  }

  function CreateHandoff(p: Package, plan: CrossValidation.Plan, q: HandoffRequest): Result<SecretaryHandoff, Error> {
    var conflicts, reviews, candidates := ConflictIds(p.conflicts), ReviewIds(p.reviews), CandidateIds(p.candidates);
    if p.specification.lineage != plan.lineage then Err(LineageMismatch)
    else if p.decision.conflictIds != conflicts then Err(ConflictsMissing)
    else if p.decision.reviewIds != reviews then Err(ReviewsMissing)
    else if q.publication.Eligible? then Err(PublicationEligible)
    else if (conflicts != [] || reviews != []) && !q.publication.Ineligible? then Err(PublicationNotIneligible)
    else if !NotLower(q.classification, p.classification) then Err(ClassificationTooLow)
    else if !(Canonical(candidates) && Canonical(conflicts) && Canonical(reviews)) then Err(InvalidHandoff)
    else Ok(SecretaryHandoff(
              q.id, p.id, p.specification.assessmentId, p.specification.lineage, p.decision.status, p.decision.id,
              MapStatus(p, q.allowIntegration), candidates, conflicts, reviews, q.classification,
              q.publication, q.external, q.createdAt))
  }

  // ---- the integration input

  datatype CandidateSummary = CandidateSummary(
    id: Id, claimIds: seq<Id>, runIds: seq<Id>, recordIds: seq<Id>, evidenceIds: seq<Id>,
    status: Consensus.Status, reasonCodes: seq<string>)

  datatype ConflictSummary = ConflictSummary(
    id: Id, claimIds: seq<Id>, recordIds: seq<Id>, conflictType: string, reasonCodes: seq<string>)

  datatype ReviewSummary = ReviewSummary(id: Id, reviewType: string, reviewerRole: string, reasonCodes: seq<string>)

  function SummarizeCandidate(c: Consensus.Candidate): CandidateSummary {
    CandidateSummary(c.id, c.claimIds, c.runIds, c.recordIds, c.evidenceIds, c.status, c.reasonCodes)
  }

  function SummarizeConflict(c: Conflict): ConflictSummary {
    ConflictSummary(c.id, c.claimIds, c.recordIds, c.conflictType, c.reasonCodes)
  }

  function SummarizeReview(r: Review): ReviewSummary {
    ReviewSummary(r.id, r.reviewType, r.reviewerRole, r.reasonCodes)
  }

  datatype Input = Input(
    id: Id, handoffId: Id, packageId: Id, tenant: Id, resource: string, consensusStatus: Consensus.Status,
    candidates: seq<CandidateSummary>, conflicts: seq<ConflictSummary>, reviews: seq<ReviewSummary>,
    classification: Classification, publication: Eligibility, external: Eligibility, createdAt: int)

  function CandidateSummaryIds(cs: seq<CandidateSummary>): (ids: seq<Id>) {
    MapSeq((c: CandidateSummary) => c.id, cs)
  }

  function ConflictSummaryIds(cs: seq<ConflictSummary>): (ids: seq<Id>) {
    MapSeq((c: ConflictSummary) => c.id, cs)
  }

  function ReviewSummaryIds(rs: seq<ReviewSummary>): (ids: seq<Id>) {
    MapSeq((r: ReviewSummary) => r.id, rs)
  }

  function CreateInput(p: Package, h: SecretaryHandoff, id: Id, at: int): Result<Input, Error> {
    var candidates := MapSeq(SummarizeCandidate, p.candidates);
    var conflicts := MapSeq(SummarizeConflict, p.conflicts);
    var reviews := MapSeq(SummarizeReview, p.reviews);
    if (h.packageId, h.assessmentId, h.lineage.planId)
       != (p.id, p.specification.assessmentId, p.specification.lineage.planId) then Err(LineageMismatch)
    else if CandidateSummaryIds(candidates) != h.candidateIds then Err(CandidateMismatch)
    else if ConflictSummaryIds(conflicts) != h.conflictIds then Err(ConflictMismatch)
    else if ReviewSummaryIds(reviews) != h.reviewIds then Err(ReviewMismatch)
    else Ok(Input(id, h.id, h.packageId, h.lineage.tenant, h.lineage.resource, h.consensusStatus, candidates,
                  conflicts, reviews, h.classification, h.publication, h.external, at))
  }

  // ---- the integration result

  datatype Integration = Integration(
    id: Id, inputId: Id, handoffId: Id, packageId: Id, tenant: Id, resource: string, status: Status,
    included: seq<Id>, retainedConflicts: seq<Id>, retainedReviews: seq<Id>, classification: Classification,
    requiresApproval: bool, publication: Eligibility, external: Eligibility, createdAt: int)

  datatype IntegrationRequest = IntegrationRequest(
    id: Id, included: seq<Id>, retainedConflicts: seq<Id>, retainedReviews: seq<Id>,
    classification: Classification, createdAt: int)

  function Integrate(i: Input, h: SecretaryHandoff, q: IntegrationRequest): Result<Integration, Error> {
    var included, conflicts, reviews :=
      Sort(IdLe, q.included), Sort(IdLe, q.retainedConflicts), Sort(IdLe, q.retainedReviews);
    if (i.handoffId, i.packageId, i.tenant, i.resource) != (h.id, h.packageId, h.lineage.tenant, h.lineage.resource)
    then Err(LineageMismatch)
    else if !(Elements(q.included) <= Elements(h.candidateIds)) then Err(UnknownCandidate)
    else if Elements(q.retainedConflicts) != Elements(h.conflictIds) then Err(ConflictsNotRetained)
    else if Elements(q.retainedReviews) != Elements(h.reviewIds) then Err(ReviewsNotRetained)
    else if !NotLower(q.classification, i.classification) then Err(ClassificationTooLow)
    else if !(Canonical(included) && Canonical(conflicts) && Canonical(reviews)) then Err(InvalidResult)
    else Ok(Integration(
              q.id, i.id, h.id, h.packageId, h.lineage.tenant, h.lineage.resource, h.status, included, conflicts,
              reviews, q.classification,
              q.retainedConflicts != [] || q.retainedReviews != [] || h.publication.RequiresSeparateApproval?,
              h.publication, h.external, q.createdAt))
  }

  // ---- the approval request and the handoff package

  datatype ApprovalRequest = ApprovalRequest(
    id: Id, resultId: Id, handoffId: Id, packageId: Id, tenant: Id, resource: string, action: string,
    conflictIds: seq<Id>, reviewIds: seq<Id>, classification: Classification, publication: Eligibility,
    external: Eligibility, requestedAt: int)

  function RequestApproval(r: Integration, id: Id, action: string, at: int): Result<ApprovalRequest, Error> {
    if !r.requiresApproval then Err(ApprovalNotRequired)
    else if !(Canonical(r.retainedConflicts) && Canonical(r.retainedReviews)) then Err(InvalidRequest)
    else Ok(ApprovalRequest(id, r.id, r.handoffId, r.packageId, r.tenant, r.resource, action, r.retainedConflicts,
                            r.retainedReviews, r.classification, r.publication, r.external, at))
  }

  datatype FinalPackage = FinalPackage(
    handoff: SecretaryHandoff, input: Input, integration: Integration, approval: Option<ApprovalRequest>,
    classification: Classification, createdAt: int)

  /** The final package's own validator. */
  predicate ValidFinal(f: FinalPackage) {
    && f.input.handoffId == f.handoff.id == f.integration.handoffId
    && f.input.packageId == f.handoff.packageId == f.integration.packageId
    && f.integration.inputId == f.input.id
    && f.input.tenant == f.handoff.lineage.tenant == f.integration.tenant
    && f.input.resource == f.handoff.lineage.resource == f.integration.resource
    && NotLower(f.classification, f.handoff.classification) && NotLower(f.classification, f.input.classification)
    && NotLower(f.classification, f.integration.classification)
    && (f.approval.Some? ==> f.approval.value.resultId == f.integration.id
                             && NotLower(f.classification, f.approval.value.classification))
  }

  function Assemble(h: SecretaryHandoff, i: Input, r: Integration, a: Option<ApprovalRequest>,
                    classification: Classification, at: int): Result<FinalPackage, Error> {
    var f := FinalPackage(h, i, r, a, classification, at);
    if !NotLower(classification, r.classification) then Err(ClassificationTooLow)
    else if r.requiresApproval && a.None? then Err(ApprovalAbsent)
    else if !r.requiresApproval && a.Some? then Err(ApprovalUnexpected)
    else if !ValidFinal(f) then Err(InvalidFinal)
    else Ok(f)
  }

  // ---- what every accepted chain keeps

  /** Every stage of the final package was accepted, each made from the one before. */
  ghost predicate Chained(p: Package, plan: CrossValidation.Plan, f: FinalPackage) {
    && (exists q :: CreateHandoff(p, plan, q) == Ok(f.handoff))
    && (exists id, at :: CreateInput(p, f.handoff, id, at) == Ok(f.input))
    && (exists q :: Integrate(f.input, f.handoff, q) == Ok(f.integration))
    && (f.approval.Some? ==>
          exists id, action, at :: RequestApproval(f.integration, id, action, at) == Ok(f.approval.value))
    && Assemble(f.handoff, f.input, f.integration, f.approval, f.classification, f.createdAt) == Ok(f)
  }

  /** The handoff's lists are the package's, and its eligibility is never open. */
  lemma HandoffKeeps(p: Package, plan: CrossValidation.Plan, h: SecretaryHandoff)
    requires exists q :: CreateHandoff(p, plan, q) == Ok(h)
    ensures h.conflictIds == ConflictIds(p.conflicts) == p.decision.conflictIds
    ensures h.reviewIds == ReviewIds(p.reviews) == p.decision.reviewIds
    ensures h.candidateIds == CandidateIds(p.candidates)
    ensures Canonical(h.conflictIds) && Canonical(h.reviewIds) && Canonical(h.candidateIds)
    ensures NotLower(h.classification, p.classification)
    ensures !h.publication.Eligible? && (p.conflicts != [] || p.reviews != [] ==> h.publication.Ineligible?)
    ensures h.status.Ready? ==> p.conflicts == [] && p.reviews == []
                                && (p.decision.status.Agreed? || p.decision.status.PartiallyAgreed?)
  {
  }

  /** The summaries name the same items as the handoff. */
  lemma InputKeeps(p: Package, h: SecretaryHandoff, i: Input)
    requires exists id, at :: CreateInput(p, h, id, at) == Ok(i)
    ensures CandidateSummaryIds(i.candidates) == h.candidateIds
    ensures ConflictSummaryIds(i.conflicts) == h.conflictIds && ReviewSummaryIds(i.reviews) == h.reviewIds
    ensures i.classification == h.classification
  {
  }

  lemma IntegrationKeeps(i: Input, h: SecretaryHandoff, r: Integration)
    requires exists q :: Integrate(i, h, q) == Ok(r)
    requires Canonical(h.conflictIds) && Canonical(h.reviewIds)
    ensures r.retainedConflicts == h.conflictIds && r.retainedReviews == h.reviewIds
    ensures forall id | id in r.included :: id in h.candidateIds
    ensures r.status == h.status && NotLower(r.classification, i.classification)
    ensures r.requiresApproval <==>
            h.conflictIds != [] || h.reviewIds != [] || h.publication.RequiresSeparateApproval?
  {
    hide Sort, Elements, NotLower, Canonical;
    var q :| Integrate(i, h, q) == Ok(r);
    RetainedAll(q.retainedConflicts, h.conflictIds);
    RetainedAll(q.retainedReviews, h.reviewIds);
    IncludedAreKnown(q.included, h.candidateIds);
  }

  lemma IncludedAreKnown(included: seq<Id>, known: seq<Id>)
    ensures Elements(included) <= Elements(known) ==> forall id | id in Sort(IdLe, included) :: id in known
  {
    SameElements(included, Sort(IdLe, included));
    assert forall id | id in included :: id in Elements(included);
  }

  /** Retaining a set of identities canonically is retaining the tuple itself. */
  lemma RetainedAll(retained: seq<Id>, ids: seq<Id>)
    requires Canonical(ids) && Elements(retained) == Elements(ids)
    ensures Canonical(Sort(IdLe, retained)) ==> Sort(IdLe, retained) == ids
    ensures retained == [] <==> ids == []
  {
    SameElements(retained, Sort(IdLe, retained));
    assert Elements(Sort(IdLe, retained)) == Elements(retained);
    if CanonicalIds(Sort(IdLe, retained)) {
      CanonicalIdsDetermined(Sort(IdLe, retained), ids);
    }
    assert retained != [] ==> retained[0] in Elements(retained);
    assert ids != [] ==> ids[0] in Elements(ids);
  }

  lemma ApprovalKeeps(r: Integration, a: ApprovalRequest)
    requires exists id, action, at :: RequestApproval(r, id, action, at) == Ok(a)
    ensures a.conflictIds == r.retainedConflicts && a.reviewIds == r.retainedReviews
    ensures a.classification == r.classification
  {
  }

  lemma AssemblyKeeps(f: FinalPackage)
    requires Assemble(f.handoff, f.input, f.integration, f.approval, f.classification, f.createdAt) == Ok(f)
    ensures f.approval.Some? <==> f.integration.requiresApproval
    ensures NotLower(f.classification, f.integration.classification)
  {
  }

  /** Nothing unresolved is lost: in every accepted chain the conflicts and the reviews are
      the same sequences in the package, its decision, the handoff, the input, the result and
      the approval request; candidates may be dropped but not invented. */
  lemma NothingUnresolvedIsLost(p: Package, plan: CrossValidation.Plan, f: FinalPackage)
    requires Chained(p, plan, f)
    ensures var ids := ConflictIds(p.conflicts);
            && ids == p.decision.conflictIds == f.handoff.conflictIds == ConflictSummaryIds(f.input.conflicts)
            && ids == f.integration.retainedConflicts
            && (f.approval.Some? ==> ids == f.approval.value.conflictIds)
    ensures var ids := ReviewIds(p.reviews);
            && ids == p.decision.reviewIds == f.handoff.reviewIds == ReviewSummaryIds(f.input.reviews)
            && ids == f.integration.retainedReviews
            && (f.approval.Some? ==> ids == f.approval.value.reviewIds)
    ensures forall id | id in f.integration.included :: id in CandidateIds(p.candidates)
  {
    hide CreateHandoff, CreateInput, Integrate, RequestApproval, Assemble, ConflictIds, ReviewIds, CandidateIds,
      CandidateSummaryIds, ConflictSummaryIds, ReviewSummaryIds, Canonical, NotLower;
    HandoffKeeps(p, plan, f.handoff);
    InputKeeps(p, f.handoff, f.input);
    IntegrationKeeps(f.input, f.handoff, f.integration);
    if f.approval.Some? {
      ApprovalKeeps(f.integration, f.approval.value);
    }
  }

  /** The chain is ready only with nothing unresolved, and carries a request for approval
      exactly when something is unresolved or publication needs a separate approval. */
  lemma ApprovalIsAskedExactly(p: Package, plan: CrossValidation.Plan, f: FinalPackage)
    requires Chained(p, plan, f)
    ensures f.integration.status.Ready? ==>
              && p.conflicts == [] && p.reviews == []
              && (p.decision.status.Agreed? || p.decision.status.PartiallyAgreed?)
    ensures f.approval.Some? <==> f.integration.requiresApproval
    ensures f.approval.Some? <==>
            p.conflicts != [] || p.reviews != [] || f.handoff.publication.RequiresSeparateApproval?
    ensures !f.handoff.publication.Eligible?
    ensures p.conflicts != [] || p.reviews != [] ==> f.handoff.publication.Ineligible?
  {
    assert ConflictIds(p.conflicts) == [] <==> p.conflicts == [];
    assert ReviewIds(p.reviews) == [] <==> p.reviews == [];
    hide CreateHandoff, CreateInput, Integrate, RequestApproval, Assemble, Canonical, NotLower, ConflictIds,
      ReviewIds, CandidateIds;
    HandoffKeeps(p, plan, f.handoff);
    IntegrationKeeps(f.input, f.handoff, f.integration);
    AssemblyKeeps(f);
  }

  /** Readiness, at the point where it is decided. */
  lemma ReadyIff(p: Package, allowIntegration: bool)
    ensures MapStatus(p, allowIntegration).Ready? <==>
            && allowIntegration && p.conflicts == [] && p.reviews == []
            && (p.decision.status.Agreed? || p.decision.status.PartiallyAgreed?)
  {
  }

  /** Every other status names what stands in the way, in this order: a review, a conflict,
      an incomplete comparison, missing evidence, and last a decision or a caller that does
      not allow it. */
  lemma BlockedIff(p: Package, allowIntegration: bool)
    ensures var status, decided := MapStatus(p, allowIntegration), p.decision.status;
            var open := p.reviews == [] && p.conflicts == [];
            && (status.RequiresManualReview? <==> p.reviews != [] || decided.ManualReviewRequired?)
            && (status.BlockedByConflict? <==>
                  p.reviews == [] && !decided.ManualReviewRequired? && (p.conflicts != [] || decided.Conflicting?))
            && (status.BlockedByIncompleteComparison? <==> open && decided.IncompleteComparison?)
            && (status.BlockedByInsufficientEvidence? <==> open && decided.InsufficientEvidence?)
            && (status.NotEligible? <==>
                  open && (decided.NoConsensus? || (!allowIntegration && (decided.Agreed? || decided.PartiallyAgreed?))))
  {
  }

  /** Exactly which packages can be handed over, with the error of the first demand missed. */
  lemma HandoffSucceedsIff(p: Package, plan: CrossValidation.Plan, q: HandoffRequest)
    ensures var r := CreateHandoff(p, plan, q);
            var unresolved := p.conflicts != [] || p.reviews != [];
            var outcome := Outcome<Error>.Pass
              .Check(plan.lineage == p.specification.lineage, LineageMismatch)
              .Check(p.decision.conflictIds == ConflictIds(p.conflicts), ConflictsMissing)
              .Check(p.decision.reviewIds == ReviewIds(p.reviews), ReviewsMissing)
              .Check(q.publication != Eligible, PublicationEligible)
              .Check(unresolved ==> q.publication == Ineligible, PublicationNotIneligible)
              .Check(NotLower(q.classification, p.classification), ClassificationTooLow)
              .Check(|p.candidates| <= 500 && |p.conflicts| <= 500 && |p.reviews| <= 500
                     && CanonicalIds(CandidateIds(p.candidates)) && CanonicalIds(ConflictIds(p.conflicts))
                     && CanonicalIds(ReviewIds(p.reviews)), InvalidHandoff);
            match outcome
            case Fail(e) => r == Err(e)
            case Pass => r.Ok? && r.value.status == MapStatus(p, q.allowIntegration)
  {
    assert p.conflicts == [] <==> ConflictIds(p.conflicts) == [];
    assert p.reviews == [] <==> ReviewIds(p.reviews) == [];
    hide CanonicalIds, ConflictIds, ReviewIds, CandidateIds, MapStatus, NotLower;
  }

  /** Every stage names the package, the plan's tenant and resource, and the stage before it,
      and repeats the decision's status and the eligibilities of the handoff. */
  lemma LineageIsKept(p: Package, plan: CrossValidation.Plan, f: FinalPackage)
    requires Chained(p, plan, f)
    ensures var h := f.handoff;
            && h.packageId == p.id && h.assessmentId == p.specification.assessmentId && h.lineage == plan.lineage
            && h.decisionId == p.decision.id && h.consensusStatus == p.decision.status
    ensures var i := f.input;
            && i.handoffId == f.handoff.id && i.packageId == p.id
            && i.tenant == plan.lineage.tenant && i.resource == plan.lineage.resource
            && i.consensusStatus == p.decision.status
            && i.publication == f.handoff.publication && i.external == f.handoff.external
  {
    hide Canonical, NotLower, ConflictIds, ReviewIds, CandidateIds, CandidateSummaryIds, ConflictSummaryIds,
      ReviewSummaryIds, Integrate, RequestApproval, Assemble, MapStatus;
    var q :| CreateHandoff(p, plan, q) == Ok(f.handoff);
    var id, at :| CreateInput(p, f.handoff, id, at) == Ok(f.input);
  }

  lemma LineageIsKeptOn(p: Package, plan: CrossValidation.Plan, f: FinalPackage)
    requires Chained(p, plan, f)
    ensures var r := f.integration;
            && r.inputId == f.input.id && r.handoffId == f.handoff.id && r.packageId == p.id
            && r.tenant == plan.lineage.tenant && r.resource == plan.lineage.resource
            && r.status == f.handoff.status && r.publication == f.handoff.publication && r.external == f.handoff.external
    ensures f.approval.Some? ==>
              var a := f.approval.value;
              && a.resultId == f.integration.id && a.handoffId == f.handoff.id && a.packageId == p.id
              && a.tenant == plan.lineage.tenant && a.resource == plan.lineage.resource
              && a.publication == f.handoff.publication && a.external == f.handoff.external
  {
    LineageIsKept(p, plan, f);
    hide Canonical, NotLower, CreateHandoff, CreateInput, Assemble, Sort, Elements;
    var q :| Integrate(f.input, f.handoff, q) == Ok(f.integration);
    if f.approval.Some? {
      var id, action, at :| RequestApproval(f.integration, id, action, at) == Ok(f.approval.value);
    }
  }

  /** Which handoffs a package makes an input for, with the error of the first demand missed. */
  lemma InputSucceedsIff(p: Package, h: SecretaryHandoff, id: Id, at: int)
    ensures var outcome := Outcome<Error>.Pass
              .Check(h.packageId == p.id && h.assessmentId == p.specification.assessmentId
                     && h.lineage.planId == p.specification.lineage.planId, LineageMismatch)
              .Check(h.candidateIds == CandidateIds(p.candidates), CandidateMismatch)
              .Check(h.conflictIds == ConflictIds(p.conflicts), ConflictMismatch)
              .Check(h.reviewIds == ReviewIds(p.reviews), ReviewMismatch);
            var i := CreateInput(p, h, id, at);
            match outcome
            case Fail(e) => i == Err(e)
            case Pass => i.Ok? && i.value.id == id && i.value.classification == h.classification && i.value.createdAt == at
  {
    assert CandidateSummaryIds(MapSeq(SummarizeCandidate, p.candidates)) == CandidateIds(p.candidates);
    assert ConflictSummaryIds(MapSeq(SummarizeConflict, p.conflicts)) == ConflictIds(p.conflicts);
    assert ReviewSummaryIds(MapSeq(SummarizeReview, p.reviews)) == ReviewIds(p.reviews);
    hide CandidateIds, ConflictIds, ReviewIds, CandidateSummaryIds, ConflictSummaryIds, ReviewSummaryIds;
  }

  /** Which results can be recorded: every conflict and review is retained, no candidate is
      invented, nothing is listed twice. */
  lemma IntegrationSucceedsIff(i: Input, h: SecretaryHandoff, q: IntegrationRequest)
    ensures var sizes := |q.included| <= 500 && |q.retainedConflicts| <= 500 && |q.retainedReviews| <= 500;
            var outcome := Outcome<Error>.Pass
              .Check(i.handoffId == h.id && i.packageId == h.packageId && i.tenant == h.lineage.tenant
                     && i.resource == h.lineage.resource, LineageMismatch)
              .Check(forall id | id in q.included :: id in h.candidateIds, UnknownCandidate)
              .Check(Elements(q.retainedConflicts) == Elements(h.conflictIds), ConflictsNotRetained)
              .Check(Elements(q.retainedReviews) == Elements(h.reviewIds), ReviewsNotRetained)
              .Check(NotLower(q.classification, i.classification), ClassificationTooLow)
              .Check(sizes && Distinct(q.included) && Distinct(q.retainedConflicts) && Distinct(q.retainedReviews),
                     InvalidResult);
            var r := Integrate(i, h, q);
            match outcome
            case Fail(e) => r == Err(e)
            case Pass =>
              r.Ok? && r.value.id == q.id && r.value.classification == q.classification && r.value.createdAt == q.createdAt
              && multiset(r.value.included) == multiset(q.included)
  {
    hide Sort, Elements, NotLower, Distinct, CanonicalIds;
    SortedIdsAre(q.included);
    SortedIdsAre(q.retainedConflicts);
    SortedIdsAre(q.retainedReviews);
    assert (forall id | id in q.included :: id in h.candidateIds) <==> Elements(q.included) <= Elements(h.candidateIds) by {
      ElementsWithin(q.included, h.candidateIds);
    }
  }

  lemma ElementsWithin(s: seq<Id>, t: seq<Id>)
    ensures Elements(s) <= Elements(t) <==> forall id | id in s :: id in t
  {
    if Elements(s) <= Elements(t) {
      forall id | id in s ensures id in t {
        assert id in Elements(s) && id in Elements(t);
      }
    }
    if forall id | id in s :: id in t {
      forall id | id in Elements(s) ensures id in Elements(t) {
      }
    }
  }

  /** Which parts make a final package: they belong together, and a request for approval is
      there exactly when the result asks for one. */
  lemma FinalSucceedsIff(h: SecretaryHandoff, i: Input, r: Integration, a: Option<ApprovalRequest>,
                         classification: Classification, at: int)
    ensures var outcome := Outcome<Error>.Pass
              .Check(NotLower(classification, r.classification), ClassificationTooLow)
              .Check(r.requiresApproval ==> a.Some?, ApprovalAbsent)
              .Check(a.Some? ==> r.requiresApproval, ApprovalUnexpected)
              .Check(&& i.handoffId == h.id && r.handoffId == h.id
                     && i.packageId == h.packageId && r.packageId == h.packageId
                     && r.inputId == i.id && i.tenant == h.lineage.tenant && r.tenant == h.lineage.tenant
                     && i.resource == h.lineage.resource && r.resource == h.lineage.resource
                     && NotLower(classification, h.classification) && NotLower(classification, i.classification)
                     && (a.Some? ==> a.value.resultId == r.id && NotLower(classification, a.value.classification)),
                     InvalidFinal);
            Assemble(h, i, r, a, classification, at) ==
            match outcome case Fail(e) => Err(e) case Pass => Ok(FinalPackage(h, i, r, a, classification, at))
  {
    hide NotLower;
  }

  /** No stage lowers a classification: the final package dominates everything inside. */
  lemma ClassificationNeverDrops(p: Package, plan: CrossValidation.Plan, f: FinalPackage)
    requires Chained(p, plan, f) && ValidPackage(p)
    ensures Dominates(f.classification, p)
    ensures NotLower(f.classification, f.integration.classification)
            && NotLower(f.integration.classification, f.handoff.classification)
            && NotLower(f.handoff.classification, p.classification)
  {
    assert Dominates(p.classification, p);
    hide CreateHandoff, CreateInput, Integrate, RequestApproval, Assemble, Canonical, ValidPackage, ConflictIds,
      ReviewIds, CandidateIds, Rank;
    HandoffKeeps(p, plan, f.handoff);
    InputKeeps(p, f.handoff, f.input);
    IntegrationKeeps(f.input, f.handoff, f.integration);
    AssemblyKeeps(f);
  }

  /** Summaries say of every item what the package says of it. */
  lemma SummariesAreFaithful(p: Package, plan: CrossValidation.Plan, f: FinalPackage)
    requires Chained(p, plan, f)
    ensures |f.input.candidates| == |p.candidates| && |f.input.conflicts| == |p.conflicts|
            && |f.input.reviews| == |p.reviews|
    ensures forall k | 0 <= k < |p.conflicts| ::
              var s, c := f.input.conflicts[k], p.conflicts[k];
              s.id == c.id && s.claimIds == c.claimIds && s.recordIds == c.recordIds
              && s.conflictType == c.conflictType && s.reasonCodes == c.reasonCodes
    ensures forall k | 0 <= k < |p.reviews| ::
              var s, r := f.input.reviews[k], p.reviews[k];
              s.id == r.id && s.reviewType == r.reviewType && s.reviewerRole == r.reviewerRole
              && s.reasonCodes == r.reasonCodes
    ensures forall k | 0 <= k < |p.candidates| ::
              var s, c := f.input.candidates[k], p.candidates[k];
              s.id == c.id && s.claimIds == c.claimIds && s.runIds == c.runIds && s.recordIds == c.recordIds
              && s.evidenceIds == c.evidenceIds && s.status == c.status && s.reasonCodes == c.reasonCodes
  {
    var id, at :| CreateInput(p, f.handoff, id, at) == Ok(f.input);
    hide CreateHandoff, Integrate, RequestApproval, Assemble;
  }

  /** Every accepted handoff can be carried to the end, whatever is unresolved in it. */
  lemma EveryHandoffCompletes(p: Package, plan: CrossValidation.Plan, q: HandoffRequest) returns (f: FinalPackage)
    requires CreateHandoff(p, plan, q).Ok?
    ensures Chained(p, plan, f) && f.handoff == CreateHandoff(p, plan, q).value
  {
    hide Canonical, ConflictIds, ReviewIds, CandidateIds, CreateInput, Integrate;
    var h := CreateHandoff(p, plan, q).value;
    HandoffKeeps(p, plan, h);
    var i := InputIsAccepted(p, h);
    var r := IntegrationIsAccepted(i, h);
    var a: Option<ApprovalRequest> := None;
    if r.requiresApproval {
      a := Some(RequestApproval(r, 0, "", 0).value);
    }
    f := FinalPackage(h, i, r, a, h.classification, 0);
  }

  lemma InputIsAccepted(p: Package, h: SecretaryHandoff) returns (i: Input)
    requires h.conflictIds == ConflictIds(p.conflicts) && h.reviewIds == ReviewIds(p.reviews)
    requires h.candidateIds == CandidateIds(p.candidates)
    requires h.packageId == p.id && h.assessmentId == p.specification.assessmentId
    requires h.lineage == p.specification.lineage
    ensures CreateInput(p, h, 0, 0) == Ok(i)
    ensures i.id == 0 && i.handoffId == h.id && i.packageId == h.packageId && i.tenant == h.lineage.tenant
            && i.resource == h.lineage.resource && i.classification == h.classification
  {
    assert CandidateSummaryIds(MapSeq(SummarizeCandidate, p.candidates)) == h.candidateIds;
    assert ConflictSummaryIds(MapSeq(SummarizeConflict, p.conflicts)) == h.conflictIds;
    assert ReviewSummaryIds(MapSeq(SummarizeReview, p.reviews)) == h.reviewIds;
    i := CreateInput(p, h, 0, 0).value;
  }

  lemma IntegrationIsAccepted(i: Input, h: SecretaryHandoff) returns (r: Integration)
    requires Canonical(h.conflictIds) && Canonical(h.reviewIds)
    requires i.handoffId == h.id && i.packageId == h.packageId && i.tenant == h.lineage.tenant
             && i.resource == h.lineage.resource && i.classification == h.classification
    ensures Integrate(i, h, IntegrationRequest(0, [], h.conflictIds, h.reviewIds, h.classification, 0)) == Ok(r)
    ensures Canonical(r.retainedConflicts) && Canonical(r.retainedReviews)
    ensures r.id == 0 && r.inputId == i.id && r.handoffId == h.id && r.packageId == h.packageId
            && r.tenant == h.lineage.tenant && r.resource == h.lineage.resource && r.classification == h.classification
  {
    SortedIsFixed(IdLe, h.conflictIds);
    SortedIsFixed(IdLe, h.reviewIds);
    SortedIsFixed(IdLe, []);
    var q := IntegrationRequest(0, [], h.conflictIds, h.reviewIds, h.classification, 0);
    assert Elements(q.included) == {};
    hide Sort, Elements;
    r := Integrate(i, h, q).value;
  }
}
