/** Collections of claim comparisons: canonical order, the relation histogram, and the
    validator both must satisfy. `details` stands for fields nothing here reads. */
module Comparison {
  import opened Common
  import opened Sorting
  import CrossValidation

  datatype Relation =
    | Contradictory | Duplicative | Equivalent | InsufficientInformation | NonOverlapping
    | PartiallyContradictory | PartiallySupporting | Qualifying | Refining | Supporting | UnknownRelation

  /** All relations in the order of their text. */
  const RELATIONS: seq<Relation> := [
    Contradictory, Duplicative, Equivalent, InsufficientInformation, NonOverlapping,
    PartiallyContradictory, PartiallySupporting, Qualifying, Refining, Supporting, UnknownRelation]

  function RelationRank(r: Relation): (k: nat)
    ensures k < |RELATIONS| && RELATIONS[k] == r
  {
    match r
    case Contradictory => 0
    case Duplicative => 1
    case Equivalent => 2
    case InsufficientInformation => 3
    case NonOverlapping => 4
    case PartiallyContradictory => 5
    case PartiallySupporting => 6
    case Qualifying => 7
    case Refining => 8
    case Supporting => 9
    case UnknownRelation => 10
  }

  lemma RankOfRelation(k: nat)
    requires k < |RELATIONS|
    ensures RelationRank(RELATIONS[k]) == k
  {
  }

  function RelationText(r: Relation): string {
    match r
    case Contradictory => "contradictory"
    case Duplicative => "duplicative"
    case Equivalent => "equivalent"
    case InsufficientInformation => "insufficient_information"
    case NonOverlapping => "non_overlapping"
    case PartiallyContradictory => "partially_contradictory"
    case PartiallySupporting => "partially_supporting"
    case Qualifying => "qualifying"
    case Refining => "refining"
    case Supporting => "supporting"
    case UnknownRelation => "unknown"
  }

  /** Where the text of each relation first differs from the one before it. */
  const RELATION_DIFFERENCES: seq<nat> := [0, 0, 0, 0, 0, 0, 10, 0, 0, 0, 0]

  lemma EarlyRelationsAscend(k: nat)
    requires 0 < k < 6
    ensures AscendsAt(RelationText(RELATIONS[k - 1]), RelationText(RELATIONS[k]), RELATION_DIFFERENCES[k])
  {
  }

  lemma LateRelationsAscend(k: nat)
    requires 6 <= k < |RELATIONS|
    ensures AscendsAt(RelationText(RELATIONS[k - 1]), RelationText(RELATIONS[k]), RELATION_DIFFERENCES[k])
  {
  }

  /** The order of the histogram is the order of the relations' text. */
  lemma RelationsFollowText(a: Relation, b: Relation)
    ensures RelationRank(a) <= RelationRank(b) <==> StringLe(RelationText(a), RelationText(b))
  {
    hide RelationText, RelationRank;
    var texts := seq(|RELATIONS|, i requires 0 <= i < |RELATIONS| => RelationText(RELATIONS[i]));
    forall k | 0 < k < |RELATIONS| ensures AscendsAt(texts[k - 1], texts[k], RELATION_DIFFERENCES[k]) {
      if k < 6 { EarlyRelationsAscend(k); } else { LateRelationsAscend(k); }
    }
    PositionsFollowTexts(texts, RELATION_DIFFERENCES, RelationRank(a), RelationRank(b));
  }

  datatype Record = Record(
    recordId: Id, comparisonId: Id, planId: Id, leftClaim: Id, rightClaim: Id, relation: Relation,
    missingEvidenceFor: seq<Id>, classification: Classification, details: string)

  datatype Status = Empty | Partial | Complete

  datatype RelationCount = RelationCount(relation: Relation, count: nat)

  datatype Collection = Collection(
    id: Id, planId: Id, tenant: Id, expected: seq<Id>, records: seq<Record>, status: Status,
    requestedCount: int, completedCount: int, missingCount: int, relationCounts: seq<RelationCount>, createdAt: int)

  datatype Error = DuplicateExpected | DuplicateRecord | UnexpectedRecord | MixedPlans | InvalidCollection

  const MAX_COMPARISONS := 500

  function ComparisonIds(rs: seq<Record>): (ids: seq<Id>)
    ensures |ids| == |rs| && forall i | 0 <= i < |ids| :: ids[i] == rs[i].comparisonId
  {
    MapSeq((r: Record) => r.comparisonId, rs)
  }

  predicate RecordLe(a: Record, b: Record) {
    a.comparisonId <= b.comparisonId
  }

  // ---- the histogram

  function CountOf(rs: seq<Record>, relation: Relation): (n: nat)
    ensures n <= |rs|
    ensures n > 0 <==> exists r :: r in rs && r.relation == relation
  {
    if rs == [] then 0
    else
      var n := |rs| - 1;
      assert rs == rs[..n] + [rs[n]];
      CountOf(rs[..n], relation) + if rs[n].relation == relation then 1 else 0
  }

  /** The count is the multiplicity of the relation among the records'. */
  lemma {:induction false} CountIsMultiplicity(rs: seq<Record>, relation: Relation)
    ensures CountOf(rs, relation) == multiset(MapSeq((r: Record) => r.relation, rs))[relation]
  {
    if rs != [] {
      var f, n := (r: Record) => r.relation, |rs| - 1;
      CountIsMultiplicity(rs[..n], relation);
      assert MapSeq(f, rs) == MapSeq(f, rs[..n]) + [rs[n].relation];
    }
  }

  /** The counts of the relations that occur, among the first k in text order. */
  function Histogram(rs: seq<Record>, k: nat): (h: seq<RelationCount>)
    requires k <= |RELATIONS|
  {
    if k == 0 then []
    else
      var n := CountOf(rs, RELATIONS[k - 1]);
      Histogram(rs, k - 1) + if n > 0 then [RelationCount(RELATIONS[k - 1], n)] else []
  }

  function Total(h: seq<RelationCount>): nat {
    if h == [] then 0 else Total(h[..|h| - 1]) + h[|h| - 1].count
  }

  /** The dictionary a counting loop fills. */
  predicate Counts(counts: map<Relation, nat>, rs: seq<Record>) {
    && (forall r :: r in counts <==> CountOf(rs, r) > 0)
    && (forall r | r in counts :: counts[r] == CountOf(rs, r))
  }

  method CountRelations(rs: seq<Record>) returns (h: seq<RelationCount>)
    ensures h == Histogram(rs, |RELATIONS|)
  {
    hide CountOf, Counts;
    var counts: map<Relation, nat> := map[];
    CountsNothing();
    for i := 0 to |rs|
      invariant Counts(counts, rs[..i])
    {
      CountsOneMore(counts, rs, i);
      counts := counts[rs[i].relation := Got(counts, rs[i].relation) + 1];
    }
    assert rs[..|rs|] == rs;
    CountsLookup(counts, rs);
    h := [];
    for k := 0 to |RELATIONS|
      invariant h == Histogram(rs, k)
    {
      if RELATIONS[k] in counts {
        h := h + [RelationCount(RELATIONS[k], counts[RELATIONS[k]])];
      }
    }
  }

  /** `counts.get(relation, 0)`. */
  function Got(counts: map<Relation, nat>, relation: Relation): nat {
    if relation in counts then counts[relation] else 0
  }

  lemma CountsNothing()
    ensures Counts(map[], [])
  {
  }

  lemma CountsOneMore(counts: map<Relation, nat>, rs: seq<Record>, i: nat)
    requires i < |rs| && Counts(counts, rs[..i])
    ensures Counts(counts[rs[i].relation := Got(counts, rs[i].relation) + 1], rs[..i + 1])
  {
    assert rs[..i + 1][..i] == rs[..i];
    forall r ensures CountOf(rs[..i + 1], r) == CountOf(rs[..i], r) + if rs[i].relation == r then 1 else 0 {
    }
    hide CountOf;
  }

  lemma CountsLookup(counts: map<Relation, nat>, rs: seq<Record>)
    requires Counts(counts, rs)
    ensures forall r :: r in counts <==> CountOf(rs, r) > 0
    ensures forall r | r in counts :: counts[r] == CountOf(rs, r)
  {
  }

  /** A histogram as the collection's validator knows it: relations in text order, each with
      the number of its records, and none that occurs left out. */
  ghost predicate IsHistogram(h: seq<RelationCount>, rs: seq<Record>) {
    && (forall i, j | 0 <= i < j < |h| :: RelationRank(h[i].relation) < RelationRank(h[j].relation))
    && (forall c | c in h :: c.count >= 1 && c.count == CountOf(rs, c.relation))
    && (forall r | r in rs :: exists c :: c in h && c.relation == r.relation)
  }

  lemma {:induction false} HistogramEntries(rs: seq<Record>, k: nat)
    requires k <= |RELATIONS|
    ensures var h := Histogram(rs, k);
            && (forall i, j | 0 <= i < j < |h| :: RelationRank(h[i].relation) < RelationRank(h[j].relation))
            && (forall c :: c in h <==> RelationRank(c.relation) < k && c.count == CountOf(rs, c.relation) > 0)
  {
    if k > 0 {
      HistogramEntries(rs, k - 1);
      RankOfRelation(k - 1);
      hide CountOf, RelationRank;
      var before, h := Histogram(rs, k - 1), Histogram(rs, k);
      forall i, j | 0 <= i < j < |h| ensures RelationRank(h[i].relation) < RelationRank(h[j].relation) {
        assert h[i] in before;
      }
    }
  }

  lemma HistogramIsValid(rs: seq<Record>)
    ensures IsHistogram(Histogram(rs, |RELATIONS|), rs)
  {
    HistogramEntries(rs, |RELATIONS|);
    forall r | r in rs ensures exists c :: c in Histogram(rs, |RELATIONS|) && c.relation == r.relation {
      assert RelationCount(r.relation, CountOf(rs, r.relation)) in Histogram(rs, |RELATIONS|);
    }
    hide CountOf, RelationRank;
  }

  /** Only one sequence is the histogram of given records. */
  lemma HistogramIsUnique(h: seq<RelationCount>, rs: seq<Record>)
    requires IsHistogram(h, rs)
    ensures h == Histogram(rs, |RELATIONS|)
  {
    var g := Histogram(rs, |RELATIONS|);
    HistogramEntries(rs, |RELATIONS|);
    hide RelationRank;
    forall c ensures c in h <==> c in g {
      if c in g {
        var r :| r in rs && r.relation == c.relation;
        var d :| d in h && d.relation == r.relation;
      }
    }
    hide CountOf, Histogram;
    AscendingIsDetermined(h, g);
  }

  lemma {:induction false} AscendingIsDetermined(g: seq<RelationCount>, h: seq<RelationCount>)
    requires forall i, j | 0 <= i < j < |g| :: RelationRank(g[i].relation) < RelationRank(g[j].relation)
    requires forall i, j | 0 <= i < j < |h| :: RelationRank(h[i].relation) < RelationRank(h[j].relation)
    requires forall c :: c in g <==> c in h
    ensures g == h
  {
    hide RelationRank;
    assert g != [] ==> g[0] in h;
    assert h != [] ==> h[0] in g;
    if g != [] {
      assert g[0] == h[0];
      forall c ensures c in g[1..] <==> c in h[1..] {
        assert c in g[1..] <==> c in g && c != g[0];
        assert c in h[1..] <==> c in h && c != h[0];
      }
      AscendingIsDetermined(g[1..], h[1..]);
    }
  }

  // ---- its sum

  function Occurring(rs: seq<Record>, k: nat): nat
    requires k <= |RELATIONS|
  {
    if k == 0 then 0 else Occurring(rs, k - 1) + CountOf(rs, RELATIONS[k - 1])
  }

  lemma {:induction false} OccurringGrows(rs: seq<Record>, k: nat)
    requires rs != [] && k <= |RELATIONS|
    ensures var n := |rs| - 1;
            Occurring(rs, k) == Occurring(rs[..n], k) + if RelationRank(rs[n].relation) < k then 1 else 0
  {
    if k > 0 {
      OccurringGrows(rs, k - 1);
      RankOfRelation(k - 1);
      assert RELATIONS[RelationRank(rs[|rs| - 1].relation)] == rs[|rs| - 1].relation;
      hide RelationRank;
    }
  }

  lemma {:induction false} EveryRecordOccurs(rs: seq<Record>)
    ensures Occurring(rs, |RELATIONS|) == |rs|
  {
    if rs == [] {
      NothingOccurs(|RELATIONS|);
    } else {
      EveryRecordOccurs(rs[..|rs| - 1]);
      OccurringGrows(rs, |RELATIONS|);
      hide Occurring;
    }
  }

  lemma {:induction false} NothingOccurs(k: nat)
    requires k <= |RELATIONS|
    ensures Occurring([], k) == 0
  {
    if k > 0 {
      NothingOccurs(k - 1);
    }
  }

  lemma {:induction false} HistogramTotals(rs: seq<Record>, k: nat)
    requires k <= |RELATIONS|
    ensures Total(Histogram(rs, k)) == Occurring(rs, k)
  {
    if k > 0 {
      HistogramTotals(rs, k - 1);
      hide CountOf;
      var before, n := Histogram(rs, k - 1), CountOf(rs, RELATIONS[k - 1]);
      if n > 0 {
        assert (before + [RelationCount(RELATIONS[k - 1], n)])[..|before|] == before;
      } else {
        assert before + [] == before;
      }
    }
  }

  /** The counts of any histogram add up to the number of records. */
  lemma CountsSumToRecords(h: seq<RelationCount>, rs: seq<Record>)
    requires IsHistogram(h, rs)
    ensures Total(h) == |rs|
  {
    HistogramIsUnique(h, rs);
    HistogramTotals(rs, |RELATIONS|);
    EveryRecordOccurs(rs);
  }

  // ---- collections

  /** The collection's own validator. */
  ghost predicate ValidCollection(c: Collection) {
    var ids := ComparisonIds(c.records);
    && |c.expected| <= MAX_COMPARISONS && |c.records| <= MAX_COMPARISONS
    && CanonicalIds(c.expected)
    && CanonicalIds(ids)
    && Elements(ids) <= Elements(c.expected)
    && IsHistogram(c.relationCounts, c.records)
    && c.requestedCount == |c.expected|
    && c.completedCount == |c.records|
    && c.missingCount == |c.expected| - |c.records| >= 0
    && c.status == (if c.records == [] then Empty else if c.missingCount == 0 then Complete else Partial)
  }

  function Collected(p: CrossValidation.Plan, expectedIds: seq<Id>, rs: seq<Record>, id: Id, at: int)
    : Result<Collection, Error>
  {
    var expected := Sort(IdLe, expectedIds);
    var records := Sort(RecordLe, rs);
    var ids := ComparisonIds(records);
    if !Distinct(expected) then Err(DuplicateExpected)
    else if !Distinct(ids) then Err(DuplicateRecord)
    else if !(Elements(ids) <= Elements(expected)) then Err(UnexpectedRecord)
    else if exists r | r in records :: r.planId != p.lineage.planId then Err(MixedPlans)
    else if |expected| > MAX_COMPARISONS || |records| > MAX_COMPARISONS then Err(InvalidCollection)
    else
      var missing := |expected| - |records|;
      Ok(Collection(
           id, p.lineage.planId, p.lineage.tenant, expected, records,
           if records == [] then Empty else if missing == 0 then Complete else Partial,
           |expected|, |records|, missing, Histogram(records, |RELATIONS|), at))
  }

  method CreateCollection(p: CrossValidation.Plan, expectedIds: seq<Id>, rs: seq<Record>, id: Id, at: int)
    returns (r: Result<Collection, Error>)
    ensures r == Collected(p, expectedIds, rs, id, at)
    ensures r.Ok? ==> ValidCollection(r.value)
  {
    CollectedIsValid(p, expectedIds, rs, id, at);
    hide Sort, Histogram, Distinct, Elements, ValidCollection, ComparisonIds;
    var expected := Sort(IdLe, expectedIds);
    if !Distinct(expected) {
      return Err(DuplicateExpected);
    }
    var records := Sort(RecordLe, rs);
    var ids := ComparisonIds(records);
    if !Distinct(ids) {
      return Err(DuplicateRecord);
    }
    if !(Elements(ids) <= Elements(expected)) {
      return Err(UnexpectedRecord);
    }
    if exists r | r in records :: r.planId != p.lineage.planId {
      return Err(MixedPlans);
    }
    var counts := CountRelations(records);
    if |expected| > MAX_COMPARISONS || |records| > MAX_COMPARISONS {
      return Err(InvalidCollection);
    }
    var missing := |expected| - |records|;
    return Ok(Collection(
      id, p.lineage.planId, p.lineage.tenant, expected, records,
      if records == [] then Empty else if missing == 0 then Complete else Partial,
      |expected|, |records|, missing, counts, at));
  }

  lemma RecordOrder()
    ensures TotalPreorder(RecordLe) && TotalPreorder(IdLe)
  {
  }

  /** What is built passes every check of the validator. */
  lemma CollectedIsValid(p: CrossValidation.Plan, expectedIds: seq<Id>, rs: seq<Record>, id: Id, at: int)
    ensures var r := Collected(p, expectedIds, rs, id, at);
            r.Ok? ==> ValidCollection(r.value)
                      && multiset(r.value.records) == multiset(rs) && multiset(r.value.expected) == multiset(expectedIds)
                      && r.value.completedCount + r.value.missingCount == r.value.requestedCount
                      && Total(r.value.relationCounts) == r.value.completedCount
  {
    hide Sort, Histogram, Distinct, Elements, ComparisonIds, IsHistogram, Total, Sorted;
    var expected, records := Sort(IdLe, expectedIds), Sort(RecordLe, rs);
    HistogramIsValid(records);
    CountsSumToRecords(Histogram(records, |RELATIONS|), records);
    if Distinct(expected) && Distinct(ComparisonIds(records)) {
      SortedOnceIsCanonical(expectedIds, rs);
      if Elements(ComparisonIds(records)) <= Elements(expected) {
        IdsFit(ComparisonIds(records), expected);
      }
    }
  }

  lemma IdsFit(s: seq<Id>, t: seq<Id>)
    requires Distinct(s) && Elements(s) <= Elements(t)
    ensures |s| <= |t|
  {
    assert forall x | x in s :: x in Elements(s) && x in Elements(t);
    DistinctSubsetIsShorter(s, t);
  }

  lemma SortedOnceIsCanonical(expectedIds: seq<Id>, rs: seq<Record>)
    ensures var expected := Sort(IdLe, expectedIds); Distinct(expected) ==> CanonicalIds(expected)
    ensures var ids := ComparisonIds(Sort(RecordLe, rs)); Distinct(ids) ==> CanonicalIds(ids)
  {
    hide Sort, Distinct, CanonicalIds;
    var self, comparisonId := (id: Id) => id, (r: Record) => r.comparisonId;
    SortedByIdIsCanonical(self, IdLe, expectedIds);
    SortedByIdIsCanonical(comparisonId, RecordLe, rs);
    assert forall s :: MapSeq(self, s) == s;
    assert forall s :: MapSeq(comparisonId, s) == ComparisonIds(s);
  }

  /** The builder accepts exactly unrepeated, expected records of its plan within the limit. */
  lemma CollectionSucceedsIff(p: CrossValidation.Plan, expectedIds: seq<Id>, rs: seq<Record>, id: Id, at: int)
    ensures var c := Collected(p, expectedIds, rs, id, at);
            var outcome := Outcome<Error>.Pass
              .Check(Distinct(expectedIds), DuplicateExpected)
              .Check(Distinct(ComparisonIds(rs)), DuplicateRecord)
              .Check(Elements(ComparisonIds(rs)) <= Elements(expectedIds), UnexpectedRecord)
              .Check(forall r | r in rs :: r.planId == p.lineage.planId, MixedPlans)
              .Check(|expectedIds| <= 500, InvalidCollection);
            match outcome
            case Fail(e) => c == Err(e)
            case Pass => c.Ok? && c.value.id == id && c.value.planId == p.lineage.planId
                         && c.value.tenant == p.lineage.tenant && c.value.createdAt == at
  {
    hide Sort, Histogram, Distinct, ComparisonIds;
    var expected, records := Sort(IdLe, expectedIds), Sort(RecordLe, rs);
    SameElements(expected, expectedIds);
    SameElements(records, rs);
    ComparisonIdsPermute(rs, records);
    ComparisonIdsPermute(records, rs);
    if Distinct(expectedIds) {
      DistinctPermutes(expectedIds, expected);
    }
    if Distinct(expected) {
      DistinctPermutes(expected, expectedIds);
    }
    assert Elements(expected) == Elements(expectedIds);
    if Distinct(ComparisonIds(rs)) && Elements(ComparisonIds(rs)) <= Elements(expectedIds) {
      IdsFit(ComparisonIds(rs), expectedIds);
    }
  }

  lemma ComparisonIdsPermute(s: seq<Record>, t: seq<Record>)
    requires multiset(s) == multiset(t)
    ensures Distinct(ComparisonIds(s)) ==> Distinct(ComparisonIds(t))
    ensures Elements(ComparisonIds(s)) == Elements(ComparisonIds(t))
  {
    var f := (r: Record) => r.comparisonId;
    assert MapSeq(f, s) == ComparisonIds(s) && MapSeq(f, t) == ComparisonIds(t);
    if Distinct(ComparisonIds(s)) {
      DistinctImagesPermute(f, s, t);
    }
    SameElements(s, t);
    ImagesOfMembers(s);
    ImagesOfMembers(t);
    hide Distinct, Elements, ComparisonIds;
    assert forall id :: id in Elements(ComparisonIds(s)) <==> id in Elements(ComparisonIds(t));
  }

  lemma ImagesOfMembers(s: seq<Record>)
    ensures forall id :: id in Elements(ComparisonIds(s)) <==> exists r :: r in s && r.comparisonId == id
  {
  }

  /** The order of the expectations and of the records does not matter, errors included. */
  lemma CollectionIgnoresOrder(p: CrossValidation.Plan, es: seq<Id>, rs: seq<Record>, fs: seq<Id>, ss: seq<Record>,
                               id: Id, at: int)
    requires multiset(es) == multiset(fs) && multiset(rs) == multiset(ss)
    ensures Collected(p, es, rs, id, at) == Collected(p, fs, ss, id, at)
  {
    hide Sort, Histogram, Distinct, Elements, ComparisonIds, RecordLe, TieFree;
    RecordOrder();
    IdsAreTieFree(es);
    PermutationSortsAlike(IdLe, es, fs);
    ComparisonIdsPermute(rs, Sort(RecordLe, rs));
    ComparisonIdsPermute(Sort(RecordLe, rs), rs);
    ComparisonIdsPermute(Sort(RecordLe, rs), Sort(RecordLe, ss));
    ComparisonIdsPermute(Sort(RecordLe, ss), Sort(RecordLe, rs));
    if Distinct(ComparisonIds(rs)) {
      RecordsAreTieFree(rs);
      PermutationSortsAlike(RecordLe, rs, ss);
    }
  }

  lemma IdsAreTieFree(es: seq<Id>)
    ensures TieFree(IdLe, es)
  {
  }

  lemma RecordsAreTieFree(rs: seq<Record>)
    requires Distinct(ComparisonIds(rs))
    ensures TieFree(RecordLe, rs)
  {
  }
}
