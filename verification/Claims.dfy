/** Claim sets of one run result: built in canonical order, and checked by their own
    validator. */
module Claims {
  import opened Common
  import opened Sorting
  import CrossValidation
  import opened Consensus

  /** What every claim of a set repeats. */
  datatype Origin = Origin(lineage: CrossValidation.Lineage, runId: Id, resultId: Id, provider: string, model: string)

  function OriginOf(c: Claim): Origin {
    Origin(c.lineage, c.runId, c.resultId, c.provider, c.model)
  }

  function ResultOrigin(x: CrossValidation.RunResult): Origin {
    Origin(x.lineage, x.runId, x.resultId, x.provider, x.model)
  }

  datatype RunClaimSet = RunClaimSet(
    id: Id, origin: Origin, classification: Classification, claims: seq<Claim>, createdAt: int)

  datatype Error = Unordered | Duplicate | LineageMismatch | ClassificationTooLow | WrongSize

  const MAX_CLAIMS := 100

  predicate ClaimLe(a: Claim, b: Claim) {
    a.id <= b.id
  }

  /** The checks of each claim in turn, against where it should come from. */
  function CheckClaims(claims: seq<Claim>, origin: Origin, classification: Classification): (outcome: Outcome<Error>)
    ensures outcome.Pass? <==>
            forall c | c in claims :: OriginOf(c) == origin && NotLower(classification, c.classification)
    ensures outcome.Fail? ==>
              || (outcome.error == LineageMismatch && exists c | c in claims :: OriginOf(c) != origin)
              || (outcome.error == Error.ClassificationTooLow
                  && exists c | c in claims :: !NotLower(classification, c.classification))
  {
    if claims == [] then Pass
    else if OriginOf(claims[0]) != origin then Fail(LineageMismatch)
    else if !NotLower(classification, claims[0].classification) then Fail(Error.ClassificationTooLow)
    else CheckClaims(claims[1..], origin, classification)
  }

  /** The set's own validator, within the bounds of its fields. */
  function CheckSet(s: RunClaimSet): Outcome<Error> {
    if !(1 <= |s.claims| <= MAX_CLAIMS) then Fail(WrongSize)
    else if !(forall i, j | 0 <= i < j < |s.claims| :: s.claims[i].id <= s.claims[j].id) then Fail(Unordered)
    else if !UniqueClaims(s.claims) then Fail(Duplicate)
    else CheckClaims(s.claims, s.origin, s.classification)
  }

  function CreateSet(x: CrossValidation.RunResult, claims: seq<Claim>, id: Id, classification: Classification, at: int)
    : Result<RunClaimSet, Error>
  {
    var ordered := Sort(ClaimLe, claims);
    match CheckClaims(ordered, ResultOrigin(x), classification)
    case Fail(e) => Err(e)
    case Pass =>
      var s := RunClaimSet(id, ResultOrigin(x), classification, ordered, at);
      match CheckSet(s)
      case Fail(e) => Err(e)
      case Pass => Ok(s)
  }

  lemma {:induction false} UniqueClaimsPermute(s: seq<Claim>, t: seq<Claim>)
    requires multiset(s) == multiset(t) && UniqueClaims(s)
    ensures UniqueClaims(t)
  {
    var f := (c: Claim) => c.id;
    assert Distinct(MapSeq(f, s));
    DistinctImagesPermute(f, s, t);
    assert forall i | 0 <= i < |t| :: MapSeq(f, t)[i] == t[i].id;
  }

  /** A set is built exactly from one to a hundred claims of the given result, no two with
      one identity and none classified above the set; it then holds just those claims, in
      canonical order. */
  lemma SetSucceedsIff(x: CrossValidation.RunResult, claims: seq<Claim>, id: Id, classification: Classification, at: int)
    ensures var r := CreateSet(x, claims, id, classification, at);
            && (r.Ok? <==>
                  && 1 <= |claims| <= 100 && UniqueClaims(claims)
                  && forall c | c in claims ::
                       && c.lineage == x.lineage && c.runId == x.runId && c.resultId == x.resultId
                       && c.provider == x.provider && c.model == x.model && NotLower(classification, c.classification))
            && (r.Ok? ==> CheckSet(r.value).Pass? && multiset(r.value.claims) == multiset(claims)
                          && r.value.origin == Origin(x.lineage, x.runId, x.resultId, x.provider, x.model)
                          && r.value.id == id && r.value.classification == classification && r.value.createdAt == at
                          && Sorted(ClaimLe, r.value.claims))
  {
    hide Sort, UniqueClaims, NotLower, CheckClaims, Sorted;
    forall c | c in claims
      ensures OriginOf(c) == ResultOrigin(x) <==>
              c.lineage == x.lineage && c.runId == x.runId && c.resultId == x.resultId
              && c.provider == x.provider && c.model == x.model
    {
    }
    hide OriginOf, ResultOrigin;
    var ordered := Sort(ClaimLe, claims);
    SortSorted(ClaimLe, claims);
    AscendingClaims(ordered);
    SameElements(ordered, claims);
    if UniqueClaims(claims) {
      UniqueClaimsPermute(claims, ordered);
    }
    if UniqueClaims(ordered) {
      UniqueClaimsPermute(ordered, claims);
    }
  }

  /** The error a set that is not built fails with. */
  lemma SetFailsWith(x: CrossValidation.RunResult, claims: seq<Claim>, id: Id, classification: Classification, at: int)
    requires CreateSet(x, claims, id, classification, at).Err?
    ensures var foreign := exists c | c in claims :: OriginOf(c) != ResultOrigin(x);
            var tooHigh := exists c | c in claims :: !NotLower(classification, c.classification);
            var e := CreateSet(x, claims, id, classification, at).error;
            && (foreign && !tooHigh ==> e == LineageMismatch)
            && (!foreign && tooHigh ==> e == Error.ClassificationTooLow)
            && (foreign && tooHigh ==> e in {LineageMismatch, Error.ClassificationTooLow})
            && (!foreign && !tooHigh ==> e == if 1 <= |claims| <= 100 then Duplicate else WrongSize)
  {
    hide Sort, UniqueClaims, OriginOf, NotLower, ResultOrigin;
    SortSorted(ClaimLe, claims);
    SameElements(Sort(ClaimLe, claims), claims);
    AscendingClaims(Sort(ClaimLe, claims));
    hide Sorted, ClaimLe;
  }

  lemma AscendingClaims(s: seq<Claim>)
    requires Sorted(ClaimLe, s)
    ensures forall i, j | 0 <= i < j < |s| :: s[i].id <= s[j].id
  {
  }

  /** A built set does not depend on the order of its claims. */
  lemma SetIgnoresOrder(x: CrossValidation.RunResult, cs: seq<Claim>, ds: seq<Claim>, id: Id,
                        classification: Classification, at: int)
    requires multiset(cs) == multiset(ds) && UniqueClaims(cs)
    ensures CreateSet(x, cs, id, classification, at) == CreateSet(x, ds, id, classification, at)
  {
    assert TieFree(ClaimLe, cs) by {
      forall a, b | a in cs && b in cs && ClaimLe(a, b) && ClaimLe(b, a) ensures a == b {
        var i :| 0 <= i < |cs| && cs[i] == a;
        var j :| 0 <= j < |cs| && cs[j] == b;
      }
    }
    PermutationSortsAlike(ClaimLe, cs, ds);
    hide Sort, CheckClaims, CheckSet;
  }

  /** Claims of a set built on a succeeded result stand, as consensus requires, on that
      result whenever it is the one supplied under its identity. */
  lemma SetClaimsStand(x: CrossValidation.RunResult, claims: seq<Claim>, id: Id, classification: Classification, at: int,
                       results: seq<CrossValidation.RunResult>, c: Claim)
    requires CreateSet(x, claims, id, classification, at).Ok? && c in claims
    requires x.succeeded && LastResult(results, x.resultId) == Some(x)
    ensures Stands(c, results)
  {
    SetSucceedsIff(x, claims, id, classification, at);
    hide CreateSet, LastResult;
    assert OriginOf(c) == ResultOrigin(x);
  }
}
