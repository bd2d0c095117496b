/** Connector health rows: one per configuration, updated by every check. New rows start
    with zero counters. */
module Health {
  import opened Common

  const HEALTHY := "healthy"
  const UNAVAILABLE := "unavailable"

  /** Failures in a row from which a connector counts as unavailable. */
  const THRESHOLD := 3

  datatype Check = Check(status: string, latency: int, error: Option<string>, at: int)

  datatype State = State(
    organization: Id, status: string, checkedAt: Option<int>, latency: int, error: Option<string>,
    successAt: Option<int>, failureAt: Option<int>, failures: nat)

  predicate Failing(c: Check) {
    c.status != HEALTHY
  }

  /** Statuses that an outage does not overwrite. */
  predicate Deliberate(status: string) {
    status == "disabled" || status == "misconfigured"
  }

  function NewState(organization: Id): State {
    State(organization, "", None, 0, None, None, None, 0)
  }

  function Upserted(s: State, c: Check): State {
    var t := s.(status := c.status, checkedAt := Some(c.at), latency := Max(c.latency, 0), error := c.error);
    if Failing(c) then t.(failureAt := Some(c.at), failures := s.failures + 1)
    else t.(successAt := Some(c.at), failures := 0)
  }

  function Persisted(s: State, c: Check): State {
    var t := Upserted(s, c);
    if t.failures >= THRESHOLD && !Deliberate(c.status) then t.(status := UNAVAILABLE) else t
  }

  function PersistedAll(s: State, checks: seq<Check>): State {
    if checks == [] then s
    else Persisted(PersistedAll(s, checks[..|checks| - 1]), checks[|checks| - 1])
  }

  /** The table of rows, unique by configuration. */
  class HealthTable {
    var rows: map<Id, State>

    constructor ()
      ensures rows == map[]
    {
      rows := map[];
    }

    /** A configuration already claimed by another organization makes the insert violate the
        uniqueness of configurations; nothing is stored then. */
    method Persist(organization: Id, configuration: Id, c: Check) returns (stored: bool)
      modifies this
      ensures stored <==> !(configuration in old(rows) && old(rows)[configuration].organization != organization)
      ensures stored ==> rows == old(rows)[configuration := Persisted(
                if configuration in old(rows) then old(rows)[configuration] else NewState(organization), c)]
      ensures !stored ==> rows == old(rows)
    {
      var state := NewState(organization);
      if configuration in rows && rows[configuration].organization == organization {
        state := rows[configuration];
      } else if configuration in rows {
        return false;
      }
      state := state.(status := c.status, checkedAt := Some(c.at), latency := Max(c.latency, 0), error := c.error);
      if c.status == HEALTHY {
        state := state.(successAt := Some(c.at), failures := 0);
      } else {
        state := state.(failureAt := Some(c.at), failures := state.failures + 1);
      }
      if state.failures >= THRESHOLD && !Deliberate(c.status) {
        state := state.(status := UNAVAILABLE);
      }
      rows := rows[configuration := state];
      return true;
    }
  }

  // ---- what a history of checks amounts to

  /** How many checks at the end of a history fail in a row. */
  function TrailingFailures(checks: seq<Check>): (n: nat)
    ensures n <= |checks|
    ensures forall i | |checks| - n <= i < |checks| :: Failing(checks[i])
    ensures n < |checks| ==> !Failing(checks[|checks| - n - 1])
  {
    if checks == [] || !Failing(checks[|checks| - 1]) then 0 else 1 + TrailingFailures(checks[..|checks| - 1])
  }

  /** The time of the last check that fails, or that does not. */
  function LastAt(checks: seq<Check>, failing: bool): (at: Option<int>)
    ensures at.Some? <==> exists c :: c in checks && Failing(c) == failing
    ensures at.Some? ==> exists i | 0 <= i < |checks| ::
              checks[i].at == at.value && Failing(checks[i]) == failing
              && forall j | i < j < |checks| :: Failing(checks[j]) != failing
  {
    if checks == [] then None
    else
      var n := |checks| - 1;
      assert checks == checks[..n] + [checks[n]];
      if Failing(checks[n]) == failing then Some(checks[n].at) else LastAt(checks[..n], failing)
  }

  /** After any history a row holds the number of failures in a row at its end, the times of
      the last success and failure, and the latest status, replaced by an outage exactly when
      the last three checks failed and the latest status is not a deliberate one. */
  lemma {:induction false} HistoryDecidesRow(organization: Id, checks: seq<Check>)
    requires checks != []
    ensures var s, last := PersistedAll(NewState(organization), checks), checks[|checks| - 1];
            && s.failures == TrailingFailures(checks)
            && s.successAt == LastAt(checks, false) && s.failureAt == LastAt(checks, true)
            && s.checkedAt == Some(last.at) && s.organization == organization
            && s.latency == Max(0, last.latency) && s.error == last.error
            && s.status == if TrailingFailures(checks) >= THRESHOLD && !Deliberate(last.status)
                           then UNAVAILABLE else last.status
  {
    var n := |checks| - 1;
    if n > 0 {
      HistoryDecidesRow(organization, checks[..n]);
    } else {
      assert checks[..0] == [];
    }
  }

  /** An outage in words: three checks at the end, none of them healthy. */
  lemma OutageIff(organization: Id, checks: seq<Check>)
    requires checks != [] && checks[|checks| - 1].status != "unavailable"
    ensures var n := |checks|;
            PersistedAll(NewState(organization), checks).status == "unavailable" <==>
            && n >= 3
            && checks[n - 1].status != "healthy" && checks[n - 2].status != "healthy" && checks[n - 3].status != "healthy"
            && checks[n - 1].status != "disabled" && checks[n - 1].status != "misconfigured"
  {
    hide *;
    HistoryDecidesRow(organization, checks);
    TrailingThree(checks);
    StatusTexts(checks);
  }

  lemma StatusTexts(checks: seq<Check>)
    ensures forall c | c in checks :: Failing(c) <==> c.status != "healthy"
    ensures forall c | c in checks :: Deliberate(c.status) <==> c.status in {"disabled", "misconfigured"}
    ensures UNAVAILABLE == "unavailable"
  {
  }

  lemma TrailingThree(checks: seq<Check>)
    ensures var n := |checks|;
            TrailingFailures(checks) >= THRESHOLD <==>
            n >= 3 && Failing(checks[n - 1]) && Failing(checks[n - 2]) && Failing(checks[n - 3])
  {
    hide TrailingFailures, Failing;
    var n, k := |checks|, TrailingFailures(checks);
    if n >= 3 && k < 3 {
      assert !Failing(checks[n - k - 1]);
    }
  }
}
