/** Consensus candidates over claims of cross-validation runs, and the structural status
    derived from comparisons. Reason codes are kept as their text. */
module Consensus {
  import opened Common
  import opened Sorting
  import Registry
  import CrossValidation
  import Comparison

  datatype Claim = Claim(
    id: Id, lineage: CrossValidation.Lineage, runId: Id, resultId: Id, provider: string, model: string,
    classification: Classification, details: string)

  /** Claim sets as consensus sees them: groups of claims. */
  datatype ClaimSet = ClaimSet(id: Id, claims: seq<Claim>)

  datatype EvidenceSet = EvidenceSet(
    planId: Id, tenant: Id, resource: string, classification: Classification, references: seq<Id>)

  datatype Status =
    | Agreed | PartiallyAgreed | Conflicting | InsufficientEvidence | IncompleteComparison
    | ManualReviewRequired | NoConsensus

  datatype Specification = Specification(
    assessmentId: Id, lineage: CrossValidation.Lineage, collectionId: Id, expectedClaims: seq<Id>,
    expectedComparisons: seq<Id>, minimumIndependentRuns: nat, classification: Classification)

  datatype Support = Support(
    runIds: seq<Id>, models: seq<string>, providers: seq<string>, claims: seq<Id>, comparisons: seq<Id>,
    evidence: seq<Id>)

  datatype Candidate = Candidate(
    id: Id, assessmentId: Id, lineage: CrossValidation.Lineage, claimIds: seq<Id>, runIds: seq<Id>,
    resultIds: seq<Id>, recordIds: seq<Id>, evidenceIds: seq<Id>, support: Support, status: Status,
    reasonCodes: seq<string>, classification: Classification, createdAt: int)

  datatype Error =
    | DuplicateClaim | UnknownClaim | UnknownRecord | RecordLineage | UnknownEvidence | EvidenceLineage
    | ClassificationTooLow | RunNotSuccessful | ClaimLineage | InsufficientRuns | InvalidCandidate

  const MAX_ITEMS := 500

  // ---- candidates

  function AllClaims(sets: seq<ClaimSet>): seq<Claim> {
    if sets == [] then [] else sets[0].claims + AllClaims(sets[1..])
  }

  predicate UniqueClaims(claims: seq<Claim>) {
    forall i, j | 0 <= i < j < |claims| :: claims[i].id != claims[j].id
  }

  function FindClaim(claims: seq<Claim>, id: Id): (c: Option<Claim>)
    ensures c.Some? ==> c.value in claims && c.value.id == id
    ensures c.None? ==> forall x | x in claims :: x.id != id
  {
    if claims == [] then None else if claims[0].id == id then Some(claims[0]) else FindClaim(claims[1..], id)
  }

  /** An index of claims by identity. */
  ghost predicate Indexes(index: map<Id, Claim>, claims: seq<Claim>) {
    && UniqueClaims(claims)
    && forall id :: FindClaim(claims, id) == if id in index then Some(index[id]) else None
  }

  /** Nothing is indexed when an identity is claimed twice. */
  method IndexClaims(sets: seq<ClaimSet>) returns (index: Option<map<Id, Claim>>)
    ensures index.Some? <==> UniqueClaims(AllClaims(sets))
    ensures index.Some? ==> Indexes(index.value, AllClaims(sets))
  {
    hide AllClaims, UniqueClaims, FindClaim, Indexes;
    var table: map<Id, Claim> := map[];
    IndexesNothing();
    var claims := AllClaims(sets);
    for i := 0 to |sets|
      invariant Indexes(table, AllClaims(sets[..i]))
    {
      AllClaimsGrow(sets, i);
      var before, group := AllClaims(sets[..i]), sets[i].claims;
      assert before + group[..0] == before;
      for j := 0 to |group|
        invariant Indexes(table, before + group[..j])
      {
        IndexesOneMore(table, before + group[..j], group[j]);
        assert before + group[..j] + [group[j]] == before + group[..j + 1];
        if group[j].id in table {
          RepeatsPersist(before + group[..j + 1], claims);
          return None;
        }
        table := table[group[j].id := group[j]];
      }
      assert before + group[..|group|] == AllClaims(sets[..i + 1]);
    }
    assert sets[..|sets|] == sets;
    IndexedAreUnique(table, claims);
    return Some(table);
  }

  lemma IndexesNothing()
    ensures Indexes(map[], AllClaims([]))
  {
  }

  lemma IndexedAreUnique(table: map<Id, Claim>, claims: seq<Claim>)
    requires Indexes(table, claims)
    ensures UniqueClaims(claims)
  {
  }

  lemma {:induction false} AllClaimsGrow(sets: seq<ClaimSet>, i: nat)
    requires i < |sets|
    ensures AllClaims(sets[..i + 1]) == AllClaims(sets[..i]) + sets[i].claims
    ensures AllClaims(sets[..i + 1]) <= AllClaims(sets)
  {
    if i == 0 {
      assert sets[..1] == [sets[0]] && AllClaims(sets[..1][1..]) == [];
    } else {
      AllClaimsGrow(sets[1..], i - 1);
      assert sets[..i + 1][1..] == sets[1..][..i] && sets[..i][1..] == sets[1..][..i - 1];
    }
  }

  lemma {:induction false} FindClaimAppend(claims: seq<Claim>, c: Claim, id: Id)
    ensures FindClaim(claims + [c], id) == if FindClaim(claims, id).Some? then FindClaim(claims, id)
                                          else if c.id == id then Some(c) else None
  {
    if claims == [] {
      assert claims + [c] == [c];
    } else {
      assert (claims + [c])[1..] == claims[1..] + [c];
      FindClaimAppend(claims[1..], c, id);
    }
  }

  lemma IndexesOneMore(table: map<Id, Claim>, claims: seq<Claim>, c: Claim)
    requires Indexes(table, claims)
    ensures c.id in table ==> !UniqueClaims(claims + [c])
    ensures c.id !in table ==> Indexes(table[c.id := c], claims + [c])
  {
    var more := claims + [c];
    if c.id in table {
      var i :| 0 <= i < |claims| && claims[i] == FindClaim(claims, c.id).value;
      assert more[i].id == more[|claims|].id;
    } else {
      assert FindClaim(claims, c.id).None?;
      forall id {
        FindClaimAppend(claims, c, id);
      }
      assert forall i | 0 <= i < |claims| :: claims[i] in claims && more[i].id != c.id;
    }
  }

  lemma RepeatsPersist(claims: seq<Claim>, all: seq<Claim>)
    requires claims <= all && !UniqueClaims(claims)
    ensures !UniqueClaims(all)
  {
  }

  /** In a dictionary built by comprehension the last item with an identity wins. */
  function LastRecord(rs: seq<Comparison.Record>, id: Id): (r: Option<Comparison.Record>)
    ensures r.Some? ==> r.value in rs && r.value.recordId == id
  {
    if rs == [] then None
    else if rs[|rs| - 1].recordId == id then Some(rs[|rs| - 1])
    else LastRecord(rs[..|rs| - 1], id)
  }

  function LastResult(xs: seq<CrossValidation.RunResult>, id: Id): (x: Option<CrossValidation.RunResult>)
    ensures x.Some? ==> x.value in xs && x.value.resultId == id
  {
    if xs == [] then None
    else if xs[|xs| - 1].resultId == id then Some(xs[|xs| - 1])
    else LastResult(xs[..|xs| - 1], id)
  }

  function Select(claims: seq<Claim>, ids: seq<Id>): (r: seq<Claim>)
    requires forall id | id in ids :: FindClaim(claims, id).Some?
    ensures |r| == |ids| && forall i | 0 <= i < |ids| :: r[i] == FindClaim(claims, ids[i]).value
  {
    seq(|ids|, i requires 0 <= i < |ids| => FindClaim(claims, ids[i]).value)
  }

  function RunIdsOf(claims: seq<Claim>): (r: seq<Id>) {
    MapSeq((c: Claim) => c.runId, claims)
  }

  function ModelsOf(claims: seq<Claim>): (r: seq<string>)
    ensures |r| == |claims| && forall i | 0 <= i < |r| :: r[i] == claims[i].model
  {
    MapSeq((c: Claim) => c.model, claims)
  }

  /** A claim stands on a supplied result that succeeded and that it names faithfully. */
  predicate Stands(c: Claim, results: seq<CrossValidation.RunResult>) {
    var x := LastResult(results, c.resultId);
    && x.Some? && x.value.succeeded && x.value.runId == c.runId && x.value.lineage.planId == c.lineage.planId
    && x.value.model == c.model && x.value.provider == c.provider
  }

  predicate RecordFits(r: Comparison.Record, s: Specification, claimIds: seq<Id>) {
    && r.comparisonId in s.expectedComparisons && r.planId == s.lineage.planId
    && r.leftClaim in claimIds && r.rightClaim in claimIds
  }

  /** What the caller asks for. */
  datatype Request = Request(
    candidateId: Id, claimIds: seq<Id>, recordIds: seq<Id>, evidenceIds: seq<Id>, status: Status,
    reasonCodes: seq<string>, classification: Classification, createdAt: int)

  predicate Canonical(ids: seq<Id>, minimum: nat) {
    minimum <= |ids| <= MAX_ITEMS && CanonicalIds(ids)
  }

  predicate ValidSupport(s: Support) {
    && Canonical(s.runIds, 0) && Canonical(s.claims, 0) && Canonical(s.comparisons, 0) && Canonical(s.evidence, 0)
    && |s.models| <= MAX_ITEMS && CanonicalText(s.models)
    && |s.providers| <= MAX_ITEMS && CanonicalText(s.providers)
  }

  /** The candidate's own validator. */
  predicate ValidCandidate(c: Candidate) {
    && Canonical(c.claimIds, 1) && Canonical(c.runIds, 1) && Canonical(c.resultIds, 1)
    && Canonical(c.recordIds, 0) && Canonical(c.evidenceIds, 0) && ValidSupport(c.support)
    && 1 <= |c.reasonCodes| <= MAX_ITEMS && CanonicalText(c.reasonCodes)
    && (c.status.Agreed? ==> |c.runIds| >= 2)
  }

  function BuildCandidate(s: Specification, selected: seq<Claim>, q: Request): Candidate {
    var runIds := IdTuple(RunIdsOf(selected));
    var claimIds, recordIds, evidenceIds :=
      Sort(IdLe, q.claimIds), Sort(IdLe, q.recordIds), Sort(IdLe, q.evidenceIds);
    Candidate(
      q.candidateId, s.assessmentId, s.lineage, claimIds, runIds,
      IdTuple(MapSeq((c: Claim) => c.resultId, selected)), recordIds, evidenceIds,
      Support(runIds, TextTuple(ModelsOf(selected)),
              TextTuple(MapSeq((c: Claim) => c.provider, selected)), claimIds, recordIds, evidenceIds),
      q.status, Sort(StringLe, q.reasonCodes), q.classification, q.createdAt)
  }

  /** The references of a request resolve, and its comparisons and evidence belong here. */
  function CheckReferences(s: Specification, claims: seq<Claim>, records: seq<Comparison.Record>,
                           evidence: EvidenceSet, q: Request): (outcome: Outcome<Error>)
    ensures outcome.Pass? ==> forall id | id in q.claimIds :: FindClaim(claims, id).Some?
  {
    if !UniqueClaims(claims) then Fail(DuplicateClaim)
    else if exists id | id in q.claimIds :: id !in s.expectedClaims || FindClaim(claims, id).None? then Fail(UnknownClaim)
    else if exists id | id in q.recordIds :: LastRecord(records, id).None? then Fail(UnknownRecord)
    else if exists id | id in q.recordIds :: !RecordFits(LastRecord(records, id).value, s, q.claimIds)
    then Fail(RecordLineage)
    else if exists id | id in q.evidenceIds :: id !in evidence.references then Fail(UnknownEvidence)
    else if (evidence.planId, evidence.tenant, evidence.resource)
            != (s.lineage.planId, s.lineage.tenant, s.lineage.resource) then Fail(EvidenceLineage)
    else if !NotLower(q.classification, evidence.classification) then Fail(ClassificationTooLow)
    else Pass
  }

  /** The selected claims stand, belong to the assessment, and are as independent as an
      agreement needs. */
  function CheckSelected(s: Specification, selected: seq<Claim>, results: seq<CrossValidation.RunResult>, q: Request)
    : Outcome<Error>
  {
    if exists c | c in selected :: !Stands(c, results) then Fail(RunNotSuccessful)
    else if exists c | c in selected :: c.lineage != s.lineage then Fail(ClaimLineage)
    else if exists c | c in selected :: !NotLower(q.classification, c.classification) then Fail(ClassificationTooLow)
    else if q.status.Agreed? && |IdTuple(RunIdsOf(selected))| < s.minimumIndependentRuns then Fail(InsufficientRuns)
    else Pass
  }

  function CreateCandidate(s: Specification, sets: seq<ClaimSet>, records: seq<Comparison.Record>,
                           results: seq<CrossValidation.RunResult>, evidence: EvidenceSet, q: Request)
    : Result<Candidate, Error>
  {
    var claims := AllClaims(sets);
    match CheckReferences(s, claims, records, evidence, q)
    case Fail(e) => Err(e)
    case Pass =>
      var selected := Select(claims, q.claimIds);
      match CheckSelected(s, selected, results, q)
      case Fail(e) => Err(e)
      case Pass =>
        var candidate := BuildCandidate(s, selected, q);
        if ValidCandidate(candidate) then Ok(candidate) else Err(InvalidCandidate)
  }

  // ---- what a candidate demands, on the fields

  predicate ClaimsResolve(s: Specification, claims: seq<Claim>, q: Request) {
    forall id | id in q.claimIds :: id in s.expectedClaims && exists c :: c in claims && c.id == id
  }

  predicate RecordsResolve(records: seq<Comparison.Record>, q: Request) {
    forall id | id in q.recordIds :: exists r :: r in records && r.recordId == id
  }

  /** Each record named compares claims of the request, under a comparison of the assessment. */
  predicate RecordsBelong(s: Specification, records: seq<Comparison.Record>, q: Request) {
    forall id | id in q.recordIds && LastRecord(records, id).Some? ::
      var r := LastRecord(records, id).value;
      && r.comparisonId in s.expectedComparisons && r.planId == s.lineage.planId
      && r.leftClaim in q.claimIds && r.rightClaim in q.claimIds
  }

  predicate EvidenceResolves(evidence: EvidenceSet, q: Request) {
    forall id | id in q.evidenceIds :: id in evidence.references
  }

  lemma ClaimsResolveIff(s: Specification, claims: seq<Claim>, q: Request)
    ensures (exists id | id in q.claimIds :: id !in s.expectedClaims || FindClaim(claims, id).None?)
            <==> !ClaimsResolve(s, claims, q)
  {
    forall id | id in q.claimIds ensures FindClaim(claims, id).Some? <==> exists c :: c in claims && c.id == id { }
    hide FindClaim;
  }

  lemma RecordsResolveIff(s: Specification, records: seq<Comparison.Record>, q: Request)
    ensures (exists id | id in q.recordIds :: LastRecord(records, id).None?) <==> !RecordsResolve(records, q)
    ensures RecordsResolve(records, q) ==>
              ((exists id | id in q.recordIds :: !RecordFits(LastRecord(records, id).value, s, q.claimIds))
               <==> !RecordsBelong(s, records, q))
  {
    forall id | id in q.recordIds ensures LastRecord(records, id).Some? <==> exists r :: r in records && r.recordId == id {
      LastRecordFound(records, id);
    }
    hide LastRecord;
  }

  lemma ReferencesAreExact(s: Specification, claims: seq<Claim>, records: seq<Comparison.Record>,
                           evidence: EvidenceSet, q: Request)
    ensures CheckReferences(s, claims, records, evidence, q) ==
            Outcome<Error>.Pass
            .Check(UniqueClaims(claims), DuplicateClaim)
            .Check(ClaimsResolve(s, claims, q), UnknownClaim)
            .Check(RecordsResolve(records, q), UnknownRecord)
            .Check(RecordsBelong(s, records, q), RecordLineage)
            .Check(EvidenceResolves(evidence, q), UnknownEvidence)
            .Check(evidence.planId == s.lineage.planId && evidence.tenant == s.lineage.tenant
                   && evidence.resource == s.lineage.resource, EvidenceLineage)
            .Check(NotLower(q.classification, evidence.classification), ClassificationTooLow)
  {
    ClaimsResolveIff(s, claims, q);
    RecordsResolveIff(s, records, q);
    assert (exists id | id in q.evidenceIds :: id !in evidence.references) <==> !EvidenceResolves(evidence, q);
    hide FindClaim, LastRecord, NotLower, UniqueClaims, ClaimsResolve, RecordsResolve, RecordsBelong, EvidenceResolves,
      RecordFits;
  }

  lemma {:induction false} LastRecordFound(records: seq<Comparison.Record>, id: Id)
    ensures LastRecord(records, id).Some? <==> exists r :: r in records && r.recordId == id
  {
    if records != [] {
      var n := |records| - 1;
      assert records == records[..n] + [records[n]];
      LastRecordFound(records[..n], id);
    }
  }

  /** A succeeded result is supplied for each claim, and the claim names it faithfully. */
  predicate ClaimsStand(selected: seq<Claim>, results: seq<CrossValidation.RunResult>) {
    forall c | c in selected ::
      var x := LastResult(results, c.resultId);
      && x.Some? && x.value.succeeded && x.value.runId == c.runId && x.value.model == c.model
      && x.value.provider == c.provider && x.value.lineage.planId == c.lineage.planId
  }

  lemma SelectedAreExact(s: Specification, selected: seq<Claim>, results: seq<CrossValidation.RunResult>, q: Request)
    ensures CheckSelected(s, selected, results, q) ==
            Outcome<Error>.Pass
            .Check(ClaimsStand(selected, results), RunNotSuccessful)
            .Check(forall c | c in selected :: c.lineage == s.lineage, ClaimLineage)
            .Check(forall c | c in selected :: NotLower(q.classification, c.classification), ClassificationTooLow)
            .Check(q.status == Agreed ==> |IdTuple(RunIdsOf(selected))| >= s.minimumIndependentRuns, InsufficientRuns)
  {
    assert (exists c | c in selected :: !Stands(c, results)) <==> !ClaimsStand(selected, results) by {
      hide LastResult;
    }
    hide Stands, ClaimsStand, NotLower, IdTuple, LastResult;
  }

  predicate ReferencesHold(s: Specification, claims: seq<Claim>, records: seq<Comparison.Record>, evidence: EvidenceSet,
                           q: Request)
  {
    && UniqueClaims(claims) && ClaimsResolve(s, claims, q)
    && RecordsResolve(records, q) && RecordsBelong(s, records, q) && EvidenceResolves(evidence, q)
    && evidence.planId == s.lineage.planId && evidence.tenant == s.lineage.tenant
    && evidence.resource == s.lineage.resource && NotLower(q.classification, evidence.classification)
  }

  predicate ClaimsHold(s: Specification, selected: seq<Claim>, results: seq<CrossValidation.RunResult>, q: Request) {
    && ClaimsStand(selected, results)
    && (forall c | c in selected :: c.lineage == s.lineage)
    && (forall c | c in selected :: NotLower(q.classification, c.classification))
    && (q.status == Agreed ==> |IdTuple(RunIdsOf(selected))| >= s.minimumIndependentRuns)
  }

  lemma ReferencesPassIff(s: Specification, claims: seq<Claim>, records: seq<Comparison.Record>, evidence: EvidenceSet,
                          q: Request)
    ensures CheckReferences(s, claims, records, evidence, q).Pass? <==> ReferencesHold(s, claims, records, evidence, q)
  {
    hide CheckReferences, UniqueClaims, ClaimsResolve, RecordsResolve, RecordsBelong, EvidenceResolves, NotLower;
    ReferencesAreExact(s, claims, records, evidence, q);
  }

  lemma SelectedPassIff(s: Specification, selected: seq<Claim>, results: seq<CrossValidation.RunResult>, q: Request)
    ensures CheckSelected(s, selected, results, q).Pass? <==> ClaimsHold(s, selected, results, q)
  {
    hide CheckSelected, ClaimsStand, NotLower, IdTuple, RunIdsOf;
    SelectedAreExact(s, selected, results, q);
  }

  /** A candidate is created exactly when the request's references resolve and belong to the
      assessment, its claims stand, its classification dominates, an agreement has enough
      runs, and what is built passes its own validator. */
  lemma CandidateSucceedsIff(s: Specification, sets: seq<ClaimSet>, records: seq<Comparison.Record>,
                             results: seq<CrossValidation.RunResult>, evidence: EvidenceSet, q: Request)
    ensures var claims, r := AllClaims(sets), CreateCandidate(s, sets, records, results, evidence, q);
            if !ReferencesHold(s, claims, records, evidence, q)
            then r.Err? && Fail(r.error) == CheckReferences(s, claims, records, evidence, q)
            else
              var selected := Select(claims, q.claimIds);
              if !ClaimsHold(s, selected, results, q) then r.Err? && Fail(r.error) == CheckSelected(s, selected, results, q)
              else
                var c := BuildCandidate(s, selected, q);
                r == if ValidCandidate(c) then Ok(c) else Err(InvalidCandidate)
  {
    hide CheckReferences, CheckSelected, BuildCandidate, ValidCandidate, AllClaims, FindClaim, ReferencesHold, ClaimsHold;
    var claims := AllClaims(sets);
    ReferencesPassIff(s, claims, records, evidence, q);
    if ReferencesHold(s, claims, records, evidence, q) {
      SelectedPassIff(s, Select(claims, q.claimIds), results, q);
    }
  }

  /** What a validator asks of a list: no repetition, and a bounded length. */
  predicate Bounded<T(==)>(s: seq<T>, minimum: nat) {
    Distinct(s) && minimum <= |s| <= 500
  }

  /** What is built from resolved claims is valid exactly when the request repeats nothing and
      keeps to the bounds, and an agreement has two runs. */
  lemma CandidateIsValidIff(s: Specification, selected: seq<Claim>, q: Request)
    requires |selected| == |q.claimIds|
    ensures ValidCandidate(BuildCandidate(s, selected, q)) <==>
            && Bounded(q.claimIds, 1) && Bounded(q.recordIds, 0) && Bounded(q.evidenceIds, 0) && Bounded(q.reasonCodes, 1)
            && (q.status == Agreed ==> |BuildCandidate(s, selected, q).runIds| >= 2)
  {
    hide Sort, IdTuple, TextTuple, CanonicalIds, CanonicalText, Distinct;
    SortedIdsAre(q.claimIds);
    SortedIdsAre(q.recordIds);
    SortedIdsAre(q.evidenceIds);
    SortedTextsAre(q.reasonCodes);
    IdTupleFits(RunIdsOf(selected));
    IdTupleFits(MapSeq((c: Claim) => c.resultId, selected));
    TextTupleFits(ModelsOf(selected));
    TextTupleFits(MapSeq((c: Claim) => c.provider, selected));
  }

  /** What a candidate holds: the request's own words and references, and the runs, results,
      models and providers of its claims. */
  lemma CandidateHolds(s: Specification, selected: seq<Claim>, q: Request)
    ensures var c := BuildCandidate(s, selected, q);
            && c.id == q.candidateId && c.assessmentId == s.assessmentId && c.lineage == s.lineage
            && c.status == q.status && c.classification == q.classification && c.createdAt == q.createdAt
            && multiset(c.claimIds) == multiset(q.claimIds) && multiset(c.recordIds) == multiset(q.recordIds)
            && multiset(c.evidenceIds) == multiset(q.evidenceIds) && multiset(c.reasonCodes) == multiset(q.reasonCodes)
            && (forall id :: id in c.runIds <==> exists x :: x in selected && x.runId == id)
            && (forall id :: id in c.resultIds <==> exists x :: x in selected && x.resultId == id)
            && (forall m :: m in c.support.models <==> exists x :: x in selected && x.model == m)
            && (forall m :: m in c.support.providers <==> exists x :: x in selected && x.provider == m)
            && c.support.runIds == c.runIds && c.support.claims == c.claimIds
            && c.support.comparisons == c.recordIds && c.support.evidence == c.evidenceIds
  {
    var f, g, h, l := (x: Claim) => x.runId, (x: Claim) => x.resultId, (x: Claim) => x.model, (x: Claim) => x.provider;
    IdTupleIsCanonical(MapSeq(f, selected));
    IdTupleIsCanonical(MapSeq(g, selected));
    TextTupleIsCanonical(MapSeq(h, selected));
    TextTupleIsCanonical(MapSeq(l, selected));
    MembersOfImage(f, selected);
    MembersOfImage(g, selected);
    MembersOfImage(h, selected);
    MembersOfImage(l, selected);
    hide Sort, IdTuple, TextTuple;
  }

  lemma MembersOfImage<T>(f: Claim -> T, selected: seq<Claim>)
    ensures forall y :: y in MapSeq(f, selected) <==> exists x :: x in selected && f(x) == y
  {
  }

  // ---- independence

  /** What a candidate's creation says about its claims. */
  lemma CandidateClaims(s: Specification, sets: seq<ClaimSet>, records: seq<Comparison.Record>,
                        results: seq<CrossValidation.RunResult>, evidence: EvidenceSet, q: Request)
    returns (selected: seq<Claim>)
    requires CreateCandidate(s, sets, records, results, evidence, q).Ok?
    ensures CreateCandidate(s, sets, records, results, evidence, q).value == BuildCandidate(s, selected, q)
    ensures ValidCandidate(BuildCandidate(s, selected, q)) && CheckSelected(s, selected, results, q).Pass?
    ensures forall c | c in selected :: c.id in q.claimIds
  {
    hide CheckReferences, CheckSelected, BuildCandidate, ValidCandidate, AllClaims, FindClaim;
    selected := Select(AllClaims(sets), q.claimIds);
  }

  lemma CandidateRuns(s: Specification, selected: seq<Claim>, results: seq<CrossValidation.RunResult>, q: Request)
    requires CheckSelected(s, selected, results, q).Pass? && ValidCandidate(BuildCandidate(s, selected, q))
    requires q.status.Agreed?
    ensures var c := BuildCandidate(s, selected, q);
            && c.runIds == IdTuple(RunIdsOf(selected)) && CanonicalIds(c.runIds)
            && |c.runIds| >= 2 && |c.runIds| >= s.minimumIndependentRuns
            && c.support.models == TextTuple(ModelsOf(selected))
    ensures forall c | c in selected :: Stands(c, results)
  {
    hide IdTuple, TextTuple, Stands, CanonicalIds, Sort, ValidSupport, CanonicalText;
  }

  lemma RunIdsOfMembers(claims: seq<Claim>)
    ensures forall id :: id in RunIdsOf(claims) <==> exists c :: c in claims && c.runId == id
  {
  }

  /** The planned run behind a run identity of a candidate, with the result it rests on. */
  predicate RestsOn(r: CrossValidation.PlannedRun, p: CrossValidation.Plan, results: seq<CrossValidation.RunResult>,
                    selected: seq<Claim>) {
    && r in p.runs
    && (exists x :: x in results && x.succeeded && x.normalized.succeeded && x.runId == r.runId
                    && (x.provider, x.model) == CrossValidation.Source(r))
    && (exists c :: c in selected && c.runId == r.runId && (c.provider, c.model) == CrossValidation.Source(r))
  }

  lemma StandingClaimRests(p: CrossValidation.Plan, results: seq<CrossValidation.RunResult>, selected: seq<Claim>,
                           c: Claim) returns (r: CrossValidation.PlannedRun)
    requires CrossValidation.CheckPlan(p).Pass? && forall x | x in results :: CrossValidation.Bound(p, x)
    requires c in selected && Stands(c, results)
    ensures RestsOn(r, p, results, selected) && r.runId == c.runId
  {
    var x := LastResult(results, c.resultId).value;
    r := CrossValidation.BoundRun(p, x);
    hide CrossValidation.CheckPlan, CrossValidation.Bound, LastResult;
  }

  /** Independence survives the pipeline: when the results are bound to a valid plan, the
      runs of an agreed candidate are that many different planned runs, no two from the same
      provider and model, each with a succeeded result. */
  lemma AgreedRestsOnIndependentRuns(p: CrossValidation.Plan, s: Specification, sets: seq<ClaimSet>,
                                     records: seq<Comparison.Record>, results: seq<CrossValidation.RunResult>,
                                     evidence: EvidenceSet, q: Request)
    returns (runs: seq<CrossValidation.PlannedRun>, selected: seq<Claim>)
    requires CrossValidation.CheckPlan(p).Pass? && forall x | x in results :: CrossValidation.Bound(p, x)
    requires CreateCandidate(s, sets, records, results, evidence, q).Ok? && q.status.Agreed?
    ensures var c := CreateCandidate(s, sets, records, results, evidence, q).value;
            && c == BuildCandidate(s, selected, q) && CheckSelected(s, selected, results, q).Pass?
            && ValidCandidate(c)
            && |runs| == |c.runIds| && |runs| >= s.minimumIndependentRuns && |runs| >= 2
            && (forall i | 0 <= i < |runs| :: runs[i].runId == c.runIds[i] && RestsOn(runs[i], p, results, selected))
            && (forall i, j | 0 <= i < j < |runs| ::
                  CrossValidation.Source(runs[i]) != CrossValidation.Source(runs[j]))
  {
    hide *;
    selected := CandidateClaims(s, sets, records, results, evidence, q);
    CandidateRuns(s, selected, results, q);
    var c := BuildCandidate(s, selected, q);
    IdTupleIsCanonical(RunIdsOf(selected));
    RunIdsOfMembers(selected);
    runs := [];
    for k := 0 to |c.runIds|
      invariant |runs| == k
      invariant forall i | 0 <= i < k :: runs[i].runId == c.runIds[i] && RestsOn(runs[i], p, results, selected)
    {
      assert c.runIds[k] in c.runIds;
      var claim :| claim in selected && claim.runId == c.runIds[k];
      var r := StandingClaimRests(p, results, selected, claim);
      runs := runs + [r];
    }
    forall i, j | 0 <= i < j < |runs| ensures CrossValidation.Source(runs[i]) != CrossValidation.Source(runs[j]) {
      RestingIsPlanned(runs[i], p, results, selected);
      RestingIsPlanned(runs[j], p, results, selected);
      CanonicalDiffer(c.runIds, i, j);
      if CrossValidation.Source(runs[i]) == CrossValidation.Source(runs[j]) {
        CrossValidation.RunIdIdentifies(p, runs[i], runs[j]);
      }
    }
  }

  lemma CanonicalDiffer(ids: seq<Id>, i: nat, j: nat)
    requires CanonicalIds(ids) && i < j < |ids|
    ensures ids[i] != ids[j]
  {
  }

  lemma RestingIsPlanned(r: CrossValidation.PlannedRun, p: CrossValidation.Plan,
                         results: seq<CrossValidation.RunResult>, selected: seq<Claim>)
    requires RestsOn(r, p, results, selected)
    ensures r in p.runs
    ensures exists c :: c in selected && c.model == r.model
  {
  }

  /** When the plan also passed the registry check, those runs name different models, and
      the candidate's support lists at least the minimum number of them. */
  lemma AgreedNamesDistinctModels(p: CrossValidation.Plan, registry: Registry.Snapshot,
                                  adapters: map<string, CrossValidation.Adapter>, s: Specification,
                                  sets: seq<ClaimSet>, records: seq<Comparison.Record>,
                                  results: seq<CrossValidation.RunResult>, evidence: EvidenceSet, q: Request)
    requires CrossValidation.CheckPlan(p).Pass? && forall x | x in results :: CrossValidation.Bound(p, x)
    requires CrossValidation.CheckAgainstRegistry(p, registry, adapters).Pass?
    requires CreateCandidate(s, sets, records, results, evidence, q).Ok? && q.status.Agreed?
    ensures var c := CreateCandidate(s, sets, records, results, evidence, q).value;
            |c.support.models| >= |c.runIds| >= s.minimumIndependentRuns
            && CanonicalText(c.support.models)
  {
    hide *;
    var runs, selected := AgreedRestsOnIndependentRuns(p, s, sets, records, results, evidence, q);
    CandidateRuns(s, selected, results, q);
    var c := BuildCandidate(s, selected, q);
    var all := ModelsOf(selected);
    TextTupleIsCanonical(all);
    var models := seq(|runs|, i requires 0 <= i < |runs| => runs[i].model);
    forall i | 0 <= i < |runs| ensures models[i] in c.support.models {
      RestingIsPlanned(runs[i], p, results, selected);
      var x :| x in selected && x.model == runs[i].model;
      var k :| 0 <= k < |selected| && selected[k] == x;
      assert all[k] == runs[i].model;
    }
    forall i, j | 0 <= i < j < |runs| ensures models[i] != models[j] {
      RestingIsPlanned(runs[i], p, results, selected);
      RestingIsPlanned(runs[j], p, results, selected);
      assert CrossValidation.Source(runs[i]) != CrossValidation.Source(runs[j]);
      CrossValidation.RegistryMakesModelsDiffer(p, registry, adapters, runs[i], runs[j]);
    }
    DistinctSubsetIsShorter(models, c.support.models);
  }

  // ---- the derived status

  const COMPATIBLE: set<Comparison.Relation> := {
    Comparison.Equivalent, Comparison.Supporting, Comparison.PartiallySupporting,
    Comparison.Refining, Comparison.Qualifying, Comparison.Duplicative}

  const UNRESOLVED: set<Comparison.Relation> := {
    Comparison.NonOverlapping, Comparison.InsufficientInformation, Comparison.UnknownRelation}

  const CONFLICT: set<Comparison.Relation> := {Comparison.Contradictory, Comparison.PartiallyContradictory}

  function RelationsIn(records: seq<Comparison.Record>): (rs: set<Comparison.Relation>)
    ensures forall x :: x in rs <==> exists r :: r in records && r.relation == x
  {
    set r | r in records :: r.relation
  }

  function ComparisonsIn(records: seq<Comparison.Record>): (ids: set<Id>)
    ensures forall id :: id in ids <==> exists r :: r in records && r.comparisonId == id
  {
    set r | r in records :: r.comparisonId
  }

  predicate Meet<T>(a: set<T>, b: set<T>) {
    a * b != {}
  }

  function DeriveStatus(records: seq<Comparison.Record>, expected: set<Id>, manualReview: bool,
                        evidenceInsufficient: bool): Status {
    var relations := RelationsIn(records);
    if manualReview then ManualReviewRequired
    else if ComparisonsIn(records) != expected then IncompleteComparison
    else if Meet(relations, CONFLICT) then Conflicting
    else if evidenceInsufficient || exists r | r in records :: r.missingEvidenceFor != [] then InsufficientEvidence
    else if Meet(relations, COMPATIBLE) && Meet(relations, UNRESOLVED) then PartiallyAgreed
    else if relations != {} && relations <= COMPATIBLE then Agreed
    else NoConsensus
  }

  lemma RelationsPartition()
    ensures CONFLICT !! COMPATIBLE && UNRESOLVED !! COMPATIBLE
  {
  }

  lemma MeetIff<T>(a: set<T>, b: set<T>)
    ensures Meet(a, b) <==> exists x :: x in a && x in b
  {
    if Meet(a, b) {
      var x :| x in a * b;
      assert x in a && x in b;
    }
    if x :| x in a && x in b {
      assert x in a * b;
    }
  }

  /** Agreement is derived exactly when nothing stands against it: every expected comparison
      is there and no other, each is compatible and misses no evidence, and there is one. */
  lemma AgreedIff(records: seq<Comparison.Record>, expected: set<Id>, manualReview: bool, evidenceInsufficient: bool)
    ensures DeriveStatus(records, expected, manualReview, evidenceInsufficient).Agreed? <==>
            && !manualReview && !evidenceInsufficient && records != []
            && ComparisonsIn(records) == expected
            && (forall r | r in records :: r.relation in COMPATIBLE && r.missingEvidenceFor == [])
  {
    RelationsPartition();
    hide COMPATIBLE, UNRESOLVED, CONFLICT, Meet, RelationsIn, ComparisonsIn;
    var relations := RelationsIn(records);
    MeetIff(relations, CONFLICT);
    MeetIff(relations, UNRESOLVED);
    if records != [] {
      assert records[0] in records && records[0].relation in relations;
    }
    assert (forall r | r in records :: r.relation in COMPATIBLE) <==> relations <= COMPATIBLE;
    if relations <= COMPATIBLE {
      assert forall x | x in relations :: x !in CONFLICT && x !in UNRESOLVED;
    }
  }

  /** Without a manual review, a conflict among complete comparisons always shows: no
      missing evidence and no compatible comparison hides it. */
  lemma ConflictsShow(records: seq<Comparison.Record>, expected: set<Id>, evidenceInsufficient: bool)
    ensures DeriveStatus(records, expected, false, evidenceInsufficient).Conflicting? <==>
            ComparisonsIn(records) == expected && exists r :: r in records && r.relation in CONFLICT
  {
    hide COMPATIBLE, UNRESOLVED, CONFLICT, Meet, RelationsIn, ComparisonsIn;
    MeetIff(RelationsIn(records), CONFLICT);
    if r :| r in records && r.relation in CONFLICT {
      assert r.relation in RelationsIn(records);
    }
  }

  /** Each record's relation is of exactly one kind: it agrees, it conflicts, or it leaves open. */
  predicate Agrees(r: Comparison.Record) {
    && r.relation != Comparison.Contradictory && r.relation != Comparison.PartiallyContradictory
    && r.relation != Comparison.NonOverlapping && r.relation != Comparison.InsufficientInformation
    && r.relation != Comparison.UnknownRelation
  }

  predicate Conflicts(r: Comparison.Record) {
    r.relation == Comparison.Contradictory || r.relation == Comparison.PartiallyContradictory
  }

  lemma RelationKinds(r: Comparison.Record)
    ensures r.relation in COMPATIBLE <==> Agrees(r)
    ensures r.relation in CONFLICT <==> Conflicts(r)
    ensures r.relation in UNRESOLVED <==> !Agrees(r) && !Conflicts(r)
  {
  }

  lemma CompleteIff(records: seq<Comparison.Record>, expected: set<Id>)
    ensures ComparisonsIn(records) == expected <==>
            && (forall id | id in expected :: exists r | r in records :: r.comparisonId == id)
            && (forall r | r in records :: r.comparisonId in expected)
  {
    hide ComparisonsIn;
    var present := ComparisonsIn(records);
    assert forall r | r in records :: r.comparisonId in present;
    if (forall id | id in expected :: exists r | r in records :: r.comparisonId == id)
       && (forall r | r in records :: r.comparisonId in expected) {
      forall id ensures id in present <==> id in expected {
      }
    }
    if present == expected {
      forall id | id in expected ensures exists r | r in records :: r.comparisonId == id {
        assert id in present;
      }
    }
  }

  /** The sets the derivation looks at, record by record. */
  lemma KindsPresent(records: seq<Comparison.Record>)
    ensures Meet(RelationsIn(records), CONFLICT) <==> exists r | r in records :: Conflicts(r)
    ensures Meet(RelationsIn(records), COMPATIBLE) <==> exists r | r in records :: Agrees(r)
    ensures Meet(RelationsIn(records), UNRESOLVED) <==> exists r | r in records :: !Agrees(r) && !Conflicts(r)
    ensures RelationsIn(records) <= COMPATIBLE <==> forall r | r in records :: Agrees(r)
    ensures RelationsIn(records) != {} <==> records != []
  {
    forall r | r in records
      ensures r.relation in RelationsIn(records)
      ensures r.relation in COMPATIBLE <==> Agrees(r)
      ensures r.relation in CONFLICT <==> Conflicts(r)
      ensures r.relation in UNRESOLVED <==> !Agrees(r) && !Conflicts(r)
    {
      RelationKinds(r);
    }
    hide COMPATIBLE, UNRESOLVED, CONFLICT, Meet, Agrees, Conflicts;
    MeetIff(RelationsIn(records), CONFLICT);
    MeetIff(RelationsIn(records), UNRESOLVED);
    MeetIff(RelationsIn(records), COMPATIBLE);
    assert records != [] ==> records[0].relation in RelationsIn(records);
  }

  /** Every status, record by record: partial agreement is some agreement beside something
      open, and no consensus is nothing but open questions, or nothing at all. */
  lemma StatusIsExact(records: seq<Comparison.Record>, expected: set<Id>, manualReview: bool, evidenceInsufficient: bool)
    ensures DeriveStatus(records, expected, manualReview, evidenceInsufficient) ==
            if manualReview then ManualReviewRequired
            else if !((forall id | id in expected :: exists r | r in records :: r.comparisonId == id)
                      && (forall r | r in records :: r.comparisonId in expected)) then IncompleteComparison
            else if exists r | r in records :: Conflicts(r) then Conflicting
            else if evidenceInsufficient || exists r | r in records :: r.missingEvidenceFor != [] then InsufficientEvidence
            else if !exists r | r in records :: Agrees(r) then NoConsensus
            else if forall r | r in records :: Agrees(r) then Agreed
            else PartiallyAgreed
  {
    CompleteIff(records, expected);
    KindsPresent(records);
    hide COMPATIBLE, UNRESOLVED, CONFLICT, Meet, RelationsIn, ComparisonsIn, Agrees, Conflicts;
  }

  // ---- the status is the caller's word

  /** The request with agreement declared. */
  function Declaring(q: Request): Request {
    q.(status := Agreed)
  }

  lemma DeclaringSelects(s: Specification, selected: seq<Claim>, results: seq<CrossValidation.RunResult>, q: Request)
    requires !q.status.Agreed?
    ensures CheckSelected(s, selected, results, Declaring(q)).Pass? <==>
            CheckSelected(s, selected, results, q).Pass?
            && |IdTuple(RunIdsOf(selected))| >= s.minimumIndependentRuns
  {
    hide Stands, IdTuple, NotLower;
  }

  lemma DeclaringBuilds(s: Specification, selected: seq<Claim>, q: Request)
    ensures BuildCandidate(s, selected, Declaring(q)) == BuildCandidate(s, selected, q).(status := Agreed)
    ensures BuildCandidate(s, selected, q).runIds == IdTuple(RunIdsOf(selected))
    ensures BuildCandidate(s, selected, q).status == q.status
  {
    hide IdTuple, TextTuple, Sort;
  }

  lemma DeclaringValidates(c: Candidate)
    requires !c.status.Agreed?
    ensures ValidCandidate(c.(status := Agreed)) <==> ValidCandidate(c) && |c.runIds| >= 2
  {
    hide Canonical, ValidSupport, CanonicalText;
  }

  lemma DeclaringRefers(s: Specification, claims: seq<Claim>, records: seq<Comparison.Record>, evidence: EvidenceSet,
                        q: Request)
    ensures CheckReferences(s, claims, records, evidence, Declaring(q))
            == CheckReferences(s, claims, records, evidence, q)
  {
    hide UniqueClaims, FindClaim, LastRecord, RecordFits, NotLower;
  }

  /** Agreement can be declared exactly where any other status can, given enough runs: the
      relations of the compared claims play no part. */
  lemma AgreementIsDeclaredIff(s: Specification, sets: seq<ClaimSet>, records: seq<Comparison.Record>,
                               results: seq<CrossValidation.RunResult>, evidence: EvidenceSet, q: Request)
    requires !q.status.Agreed?
    ensures var r := CreateCandidate(s, sets, records, results, evidence, q);
            var declared := CreateCandidate(s, sets, records, results, evidence, Declaring(q));
            && (declared.Ok? <==> r.Ok? && |r.value.runIds| >= s.minimumIndependentRuns && |r.value.runIds| >= 2)
            && (declared.Ok? ==> declared.value == r.value.(status := Agreed))
  {
    hide AllClaims, CheckReferences, CheckSelected, BuildCandidate, ValidCandidate, FindClaim, IdTuple;
    var claims := AllClaims(sets);
    DeclaringRefers(s, claims, records, evidence, q);
    if CheckReferences(s, claims, records, evidence, q).Pass? {
      var selected := Select(claims, q.claimIds);
      assert Select(claims, Declaring(q).claimIds) == selected;
      DeclaringSelects(s, selected, results, q);
      DeclaringBuilds(s, selected, q);
      DeclaringValidates(BuildCandidate(s, selected, q));
    }
  }

  /** Records that differ at most in their relations and missing evidence. */
  predicate SameButForFindings(rs: seq<Comparison.Record>, ts: seq<Comparison.Record>) {
    |rs| == |ts|
    && forall i | 0 <= i < |rs| ::
         rs[i].(relation := ts[i].relation, missingEvidenceFor := ts[i].missingEvidenceFor) == ts[i]
  }

  lemma {:induction false} LastRecordIgnoresFindings(rs: seq<Comparison.Record>, ts: seq<Comparison.Record>, id: Id)
    requires SameButForFindings(rs, ts)
    ensures LastRecord(rs, id).Some? <==> LastRecord(ts, id).Some?
    ensures LastRecord(rs, id).Some? ==>
              forall s, claimIds :: RecordFits(LastRecord(rs, id).value, s, claimIds)
                               <==> RecordFits(LastRecord(ts, id).value, s, claimIds)
  {
    if rs != [] {
      LastRecordIgnoresFindings(rs[..|rs| - 1], ts[..|ts| - 1], id);
    }
  }

  /** What the comparisons found changes nothing about a candidate, its status included. */
  lemma CandidateIgnoresFindings(s: Specification, sets: seq<ClaimSet>, rs: seq<Comparison.Record>,
                                 ts: seq<Comparison.Record>, results: seq<CrossValidation.RunResult>,
                                 evidence: EvidenceSet, q: Request)
    requires SameButForFindings(rs, ts)
    ensures CreateCandidate(s, sets, rs, results, evidence, q) == CreateCandidate(s, sets, ts, results, evidence, q)
  {
    hide AllClaims, CheckSelected, BuildCandidate, ValidCandidate, FindClaim;
    assert CheckReferences(s, AllClaims(sets), rs, evidence, q) == CheckReferences(s, AllClaims(sets), ts, evidence, q) by {
      hide UniqueClaims, LastRecord, RecordFits, NotLower;
      forall id | id in q.recordIds
        ensures LastRecord(rs, id).Some? <==> LastRecord(ts, id).Some?
        ensures LastRecord(rs, id).Some? ==>
                  (RecordFits(LastRecord(rs, id).value, s, q.claimIds)
                   <==> RecordFits(LastRecord(ts, id).value, s, q.claimIds))
      {
        LastRecordIgnoresFindings(rs, ts, id);
      }
    }
    hide CheckReferences;
  }

  // One agreed candidate over a contradiction: two claims from two succeeded runs of two
  // models, and the record that they contradict each other.

  const PLAN := CrossValidation.Lineage(1, 2, "r", 3, 1)
  const LEFT := Claim(11, PLAN, 21, 31, "p", "m", Public, "")
  const RIGHT := Claim(12, PLAN, 22, 32, "q", "n", Public, "")
  const CONTRADICTION := Comparison.Record(41, 51, 1, 11, 12, Comparison.Contradictory, [], Public, "")
  const ASSESSMENT := Specification(60, PLAN, 61, [11, 12], [51], 2, Public)
  const NO_EVIDENCE := EvidenceSet(1, 2, "r", Public, [])
  const AGREEMENT := Request(70, [11, 12], [41], [], Agreed, ["x"], Public, 0)

  function Succeeded(c: Claim): CrossValidation.RunResult {
    CrossValidation.RunResult(
      c.resultId, c.runId, c.lineage, 1, c.provider, c.model, "a", 0, 0, 0, None, true,
      CrossValidation.Normalized(0, 0, 0, 0, None, 3, 1, c.provider, c.model, "a", true, 0, ""), 0)
  }

  function BothSucceeded(): seq<CrossValidation.RunResult> {
    [Succeeded(LEFT), Succeeded(RIGHT)]
  }

  lemma ContradictionRefers()
    ensures CheckReferences(ASSESSMENT, [LEFT, RIGHT], [CONTRADICTION], NO_EVIDENCE, AGREEMENT).Pass?
    ensures Select([LEFT, RIGHT], [11, 12]) == [LEFT, RIGHT]
  {
    assert FindClaim([LEFT, RIGHT], 11) == Some(LEFT);
    assert [LEFT, RIGHT][1..] == [RIGHT];
    assert FindClaim([LEFT, RIGHT], 12) == Some(RIGHT);
    assert LastRecord([CONTRADICTION], 41) == Some(CONTRADICTION);
  }

  lemma LastOfTwo(x: CrossValidation.RunResult, y: CrossValidation.RunResult)
    requires x.resultId != y.resultId
    ensures LastResult([x, y], x.resultId) == Some(x) && LastResult([x, y], y.resultId) == Some(y)
  {
    assert [x, y][..1] == [x];
  }

  lemma BothStand()
    ensures Stands(LEFT, BothSucceeded()) && Stands(RIGHT, BothSucceeded())
  {
    LastOfTwo(Succeeded(LEFT), Succeeded(RIGHT));
    hide LastResult;
  }

  lemma ContradictionSelects()
    ensures CheckSelected(ASSESSMENT, [LEFT, RIGHT], BothSucceeded(), AGREEMENT).Pass?
    ensures IdTuple(RunIdsOf([LEFT, RIGHT])) == [21, 22]
  {
    hide Stands, IdTuple, BothSucceeded;
    BothStand();
    IdPair(RunIdsOf([LEFT, RIGHT]), 21, 22);
  }

  lemma IdPair(ids: seq<Id>, a: Id, b: Id)
    requires ids == [a, b] && a < b
    ensures IdTuple(ids) == [a, b]
  {
    IdTupleIsCanonical(ids);
    hide IdTuple;
    forall x ensures x in Elements(IdTuple(ids)) <==> x in Elements(ids) {
      assert x in IdTuple(ids) <==> x in ids;
    }
    CanonicalIdsDetermined(IdTuple(ids), ids);
  }

  lemma SortedLists()
    ensures Sort(IdLe, [11, 12]) == [11, 12] && Sort(IdLe, [41]) == [41] && Sort(IdLe, []) == []
    ensures Sort(StringLe, ["x"]) == ["x"]
  {
    hide Sort;
    SortedIsFixed(IdLe, [11, 12]);
    SortedIsFixed(IdLe, [41]);
    SortedIsFixed(IdLe, []);
    SortedIsFixed(StringLe, ["x"]);
  }

  /** A candidate with two claims, two runs, one record and well-formed texts. */
  predicate IsPair(c: Candidate) {
    && c.claimIds == [11, 12] && c.runIds == [21, 22] && c.resultIds == [31, 32] && c.recordIds == [41]
    && c.evidenceIds == [] && c.reasonCodes == ["x"]
    && c.support.runIds == c.runIds && c.support.claims == c.claimIds
    && c.support.comparisons == c.recordIds && c.support.evidence == c.evidenceIds
    && CanonicalText(c.support.models) && |c.support.models| <= MAX_ITEMS
    && CanonicalText(c.support.providers) && |c.support.providers| <= MAX_ITEMS
  }

  lemma PairIsValid(c: Candidate)
    requires IsPair(c)
    ensures ValidCandidate(c)
  {
    assert CanonicalText(["x"]) by {
      hide StringLe;
    }
    hide CanonicalText;
  }

  lemma ContradictionBuilds()
    ensures var c := BuildCandidate(ASSESSMENT, [LEFT, RIGHT], AGREEMENT); IsPair(c) && c.status == Agreed
  {
    hide Sort, IdTuple, TextTuple, CanonicalText, CheckSelected, BothSucceeded;
    var selected := [LEFT, RIGHT];
    ContradictionSelects();
    SortedLists();
    IdPair(MapSeq((x: Claim) => x.resultId, selected), 31, 32);
    TextTupleFits(ModelsOf(selected));
    TextTupleFits(MapSeq((x: Claim) => x.provider, selected));
  }

  lemma ContradictionConflicts()
    ensures DeriveStatus([CONTRADICTION], {51}, false, false).Conflicting?
  {
    assert CONTRADICTION in [CONTRADICTION] && CONTRADICTION.relation in CONFLICT;
    assert ComparisonsIn([CONTRADICTION]) == {51};
    ConflictsShow([CONTRADICTION], {51}, false);
    hide DeriveStatus;
  }

  /** An agreed candidate whose only comparison is a contradiction, where the derived status
      is a conflict. */
  lemma AgreedOverContradiction()
    ensures var r := CreateCandidate(ASSESSMENT, [ClaimSet(0, [LEFT, RIGHT])], [CONTRADICTION], BothSucceeded(),
                                     NO_EVIDENCE, AGREEMENT);
            && r.Ok? && r.value.status.Agreed? && r.value.recordIds == [CONTRADICTION.recordId]
            && DeriveStatus([CONTRADICTION], {CONTRADICTION.comparisonId}, false, false).Conflicting?
  {
    assert AllClaims([ClaimSet(0, [LEFT, RIGHT])]) == [LEFT, RIGHT];
    hide AllClaims, CheckReferences, CheckSelected, ValidCandidate, IdTuple, TextTuple, Sort, DeriveStatus,
      BothSucceeded;
    ContradictionRefers();
    ContradictionSelects();
    ContradictionBuilds();
    PairIsValid(BuildCandidate(ASSESSMENT, [LEFT, RIGHT], AGREEMENT));
    ContradictionConflicts();
  }
}
