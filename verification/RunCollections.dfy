/** What collecting the results of a plan's runs guarantees. */
module RunCollections {
  import opened Common
  import opened CrossValidation
  import Sorting

  /** What the builder asks of the results it is given. */
  predicate Acceptable(p: Plan, xs: seq<RunResult>) {
    && Distinct(ResultIds(xs))
    && Elements(ResultIds(xs)) <= Elements(RunIds(p.runs))
    && forall x | x in xs :: x.lineage == p.lineage
  }

  lemma {:induction false} OrderedMembers(runs: seq<PlannedRun>, xs: seq<RunResult>)
    ensures var r := InPlanOrder(runs, xs);
            forall x :: x in r <==> x.runId in RunIds(runs) && ResultFor(xs, x.runId) == Some(x)
  {
    if runs != [] {
      var ids := RunIds(runs);
      assert RunIds(runs[1..]) == ids[1..];
      assert ids == [ids[0]] + ids[1..];
      OrderedMembers(runs[1..], xs);
      hide ResultFor, RunIds;
    }
  }

  lemma {:induction false} OrderedOnce(runs: seq<PlannedRun>, xs: seq<RunResult>)
    requires Distinct(RunIds(runs))
    ensures Distinct(ResultIds(InPlanOrder(runs, xs)))
  {
    if runs != [] {
      var ids, tail := RunIds(runs), InPlanOrder(runs[1..], xs);
      assert RunIds(runs[1..]) == ids[1..];
      OrderedOnce(runs[1..], xs);
      OrderedMembers(runs[1..], xs);
      var head := ResultFor(xs, ids[0]);
      assert ids[0] !in ids[1..];
      hide ResultFor, RunIds;
      if head.Some? {
        assert forall x | x in tail :: x.runId != head.value.runId;
        PrependOnce(head.value, tail);
      } else {
        assert [] + tail == tail;
      }
    }
  }

  lemma PrependOnce(x: RunResult, tail: seq<RunResult>)
    requires Distinct(ResultIds(tail)) && forall y | y in tail :: y.runId != x.runId
    ensures Distinct(ResultIds([x] + tail))
  {
  }

  lemma IdsOfMembers(xs: seq<RunResult>)
    ensures forall id :: id in Elements(ResultIds(xs)) <==> exists x :: x in xs && x.runId == id
  {
  }

  lemma DistinctIdsMeanDistinct(xs: seq<RunResult>)
    requires Distinct(ResultIds(xs))
    ensures Distinct(xs)
  {
  }

  /** Nothing is lost or invented when results are put in the order of the plan. */
  lemma OrderingKeepsResults(p: Plan, xs: seq<RunResult>)
    requires CheckPlan(p).Pass? && Acceptable(p, xs)
    ensures multiset(InPlanOrder(p.runs, xs)) == multiset(xs)
    ensures Distinct(ResultIds(InPlanOrder(p.runs, xs)))
    ensures Elements(ResultIds(InPlanOrder(p.runs, xs))) == Elements(ResultIds(xs))
  {
    var r := InPlanOrder(p.runs, xs);
    PlanRunIdsDistinct(p);
    OrderedMembers(p.runs, xs);
    OrderedOnce(p.runs, xs);
    IdsOfMembers(xs);
    IdsOfMembers(r);
    hide CheckPlan, InPlanOrder;
    forall x ensures x in r <==> x in xs {
      if x in xs {
        ResultIsFound(xs, x);
        assert x.runId in Elements(ResultIds(xs));
      }
    }
    DistinctIdsMeanDistinct(xs);
    DistinctIdsMeanDistinct(r);
    Sorting.SameMembersPermute(r, xs);
  }

  lemma RequiredIdsAreExpected(p: Plan)
    ensures Elements(RunIds(Required(p.runs))) <= Elements(RunIds(p.runs))
  {
  }

  /** For a valid plan the builder accepts exactly results of its own runs, one for each at
      most; then the collection passes its separately written validator, holds precisely
      those results, and accounts for every planned run. */
  lemma CollectionSucceedsIff(p: Plan, xs: seq<RunResult>, id: Id, at: int)
    requires ValidPlan(p)
    ensures var r := Collected(p, xs, id, at);
            && (r.Ok? <==> Acceptable(p, xs))
            && (r.Err? ==> r.error == if !Distinct(ResultIds(xs)) then DuplicateResult
                                      else if !(Elements(ResultIds(xs)) <= Elements(RunIds(p.runs))) then UnknownRun
                                      else ResultLineage)
            && (r.Ok? ==> && r.value.id == id && r.value.planId == p.lineage.planId && r.value.tenant == p.lineage.tenant
                          && r.value.registryId == p.lineage.registryId
                          && r.value.registryRevision == p.lineage.registryRevision
                          && r.value.expected == RunIds(p.runs) && r.value.required == RunIds(Required(p.runs))
                          && r.value.minimumRequiredRuns == p.minimumRequiredRuns && r.value.collectedAt == at)
            && (r.Ok? ==> && ValidCollection(r.value)
                          && multiset(r.value.results) == multiset(xs)
                          && r.value.successfulCount + r.value.failedCount + r.value.missingCount == r.value.expectedCount)
  {
    assert |Required(p.runs)| >= p.minimumRequiredRuns by {
      hide Required;
    }
    hide CheckPlan, InPlanOrder, Required, Count, Distinct, Elements, RunIds, ResultIds, MatchesPlan;
    if Acceptable(p, xs) {
      OrderingKeepsResults(p, xs);
      RequiredIdsAreExpected(p);
      CountsAddUp(InPlanOrder(p.runs, xs));
    }
  }

  /** Results bound to a valid plan, one for each run at most, can always be collected. */
  lemma BoundResultsCollect(p: Plan, xs: seq<RunResult>, id: Id, at: int)
    requires ValidPlan(p) && Distinct(ResultIds(xs))
    requires forall x | x in xs :: Bound(p, x)
    ensures Collected(p, xs, id, at).Ok?
  {
    forall x | x in xs ensures MatchesPlan(p, x) && x.runId in RunIds(p.runs) {
      var r := BoundRun(p, x);
      var i :| 0 <= i < |p.runs| && p.runs[i] == r;
      assert RunIds(p.runs)[i] == x.runId;
    }
    IdsOfMembers(xs);
    hide Bound, CheckPlan;
    CollectionSucceedsIff(p, xs, id, at);
  }

  // ---- order independence

  lemma ResultIdsPermute(xs: seq<RunResult>, ys: seq<RunResult>)
    requires multiset(xs) == multiset(ys)
    ensures Distinct(ResultIds(xs)) ==> Distinct(ResultIds(ys))
  {
    if Distinct(ResultIds(xs)) {
      var f := (x: RunResult) => x.runId;
      assert MapSeq(f, xs) == ResultIds(xs) && MapSeq(f, ys) == ResultIds(ys);
      Sorting.DistinctImagesPermute(f, xs, ys);
    }
  }

  lemma {:induction false} OrderingDependsOnLookups(runs: seq<PlannedRun>, xs: seq<RunResult>, ys: seq<RunResult>)
    requires forall id :: ResultFor(xs, id) == ResultFor(ys, id)
    ensures InPlanOrder(runs, xs) == InPlanOrder(runs, ys)
  {
    if runs != [] {
      OrderingDependsOnLookups(runs[1..], xs, ys);
      hide ResultFor;
    }
  }

  lemma LookupsPermute(xs: seq<RunResult>, ys: seq<RunResult>)
    requires multiset(xs) == multiset(ys) && Distinct(ResultIds(xs)) && Distinct(ResultIds(ys))
    ensures forall id :: ResultFor(xs, id) == ResultFor(ys, id)
  {
    Sorting.SameElements(xs, ys);
    forall id ensures ResultFor(xs, id) == ResultFor(ys, id) {
      if ResultFor(xs, id).Some? {
        ResultIsFound(ys, ResultFor(xs, id).value);
      }
    }
  }

  lemma IdSetsPermute(xs: seq<RunResult>, ys: seq<RunResult>)
    requires multiset(xs) == multiset(ys)
    ensures Elements(ResultIds(xs)) == Elements(ResultIds(ys))
  {
    Sorting.SameElements(xs, ys);
    IdsOfMembers(xs);
    IdsOfMembers(ys);
    hide Elements, ResultIds;
  }

  /** The order in which results arrive changes neither the collection nor the error. */
  lemma CollectionIgnoresOrder(p: Plan, xs: seq<RunResult>, ys: seq<RunResult>, id: Id, at: int)
    requires multiset(xs) == multiset(ys)
    ensures Collected(p, xs, id, at) == Collected(p, ys, id, at)
  {
    hide InPlanOrder, ValidCollection, Distinct, Elements, ResultIds, MatchesPlan, Required, RunIds, Count, ResultFor;
    Sorting.SameElements(xs, ys);
    ResultIdsPermute(xs, ys);
    ResultIdsPermute(ys, xs);
    IdSetsPermute(xs, ys);
    if Distinct(ResultIds(xs)) {
      LookupsPermute(xs, ys);
      OrderingDependsOnLookups(p.runs, xs, ys);
    }
  }

  // ---- more results

  lemma {:induction false} MoreResultsCountMore(runs: seq<PlannedRun>, xs: seq<RunResult>, ys: seq<RunResult>)
    requires forall id | ResultFor(xs, id).Some? :: ResultFor(ys, id) == ResultFor(xs, id)
    ensures Count(InPlanOrder(runs, xs), true) <= Count(InPlanOrder(runs, ys), true)
  {
    if runs != [] {
      MoreResultsCountMore(runs[1..], xs, ys);
      var a, b := InPlanOrder(runs[1..], xs), InPlanOrder(runs[1..], ys);
      CountHead(ResultFor(xs, runs[0].runId), a);
      CountHead(ResultFor(ys, runs[0].runId), b);
      hide Count, ResultFor;
    }
  }

  lemma CountHead(x: Option<RunResult>, tail: seq<RunResult>)
    ensures Count((if x.Some? then [x.value] else []) + tail, true)
            == (if x.Some? && x.value.succeeded then 1 else 0) + Count(tail, true)
  {
    if x.Some? {
      assert ([x.value] + tail)[1..] == tail;
    } else {
      assert [] + tail == tail;
    }
  }

  /** A complete collection stays complete when further results are added. */
  lemma CompleteStaysComplete(p: Plan, xs: seq<RunResult>, ys: seq<RunResult>, id: Id, at: int, later: int)
    requires Collected(p, xs, id, at).Ok? && Collected(p, ys, id, later).Ok?
    requires forall x | x in xs :: x in ys
    requires Collected(p, xs, id, at).value.status == Complete
    ensures Collected(p, ys, id, later).value.status == Complete
  {
    forall id | ResultFor(xs, id).Some? ensures ResultFor(ys, id) == ResultFor(xs, id) {
      ResultIsFound(ys, ResultFor(xs, id).value);
    }
    MoreResultsCountMore(p.runs, xs, ys);
    IdsOfMembers(xs);
    IdsOfMembers(ys);
    assert Elements(ResultIds(xs)) <= Elements(ResultIds(ys));
    hide InPlanOrder, ValidCollection, Distinct, Elements, ResultIds, MatchesPlan, Required, RunIds, Count, ResultFor;
  }
}
