/** The rate-window counters: rows that a trigger lets move only one admitted decision
    at a time, over a decision table that is append-only. Any statement may be tried;
    one that a constraint or trigger rejects leaves the database as it was. */
module RateAdmission {
  import opened Common

  /** The eight policy columns that identify one policy revision. */
  datatype Policy = Policy(
    tenant: Id, org: Id, principal: Id, operation: string, classification: string,
    policyId: Id, revision: int, reference: string)

  /** The primary key is the policy without its reference. */
  predicate SameRevision(a: Policy, b: Policy) {
    a.(reference := b.reference) == b
  }

  datatype Window = Window(start: int, end: int)

  datatype CounterKey = CounterKey(policy: Policy, window: Window)

  datatype Disposition = Admitted | Denied

  datatype Decision = Decision(
    policy: Policy, window: Window, preparation: Id, request: Id, reference: string, digest: string,
    observedAt: int, evaluatedAt: int, committedAt: int,
    disposition: Disposition, retryAfter: Option<int>, before: int, after: int)

  datatype Counter = Counter(admitted: int, lastDecision: Id, lastRequest: Id, lastPreparation: Id)

  datatype Database = Database(
    policies: set<Policy>,
    decisions: map<Id, Decision>,
    counters: map<CounterKey, Counter>)

  const EMPTY := Database({}, map[], map[])

  const LIMIT := 1000000
  const DAY := 86400

  // ---- constraints and trigger

  predicate DecisionChecks(d: Decision) {
    && d.window.start < d.window.end && d.window.start <= d.observedAt < d.window.end
    && d.observedAt == d.evaluatedAt && d.evaluatedAt <= d.committedAt
    && (match d.disposition
        case Admitted => d.retryAfter.None? && d.after == d.before + 1
        case Denied => d.retryAfter.Some? && 1 <= d.retryAfter.value <= DAY && d.after == d.before)
    && 0 <= d.before <= LIMIT && 0 <= d.after <= LIMIT
  }

  /** The four unique constraints, each within one tenant and organization. */
  predicate Clashes(a: Decision, b: Decision) {
    && a.policy.tenant == b.policy.tenant && a.policy.org == b.policy.org
    && (a.request == b.request || a.preparation == b.preparation
        || a.reference == b.reference || a.digest == b.digest)
  }

  predicate DecisionInsertable(db: Database, id: Id, d: Decision) {
    && id !in db.decisions && d.policy in db.policies && DecisionChecks(d)
    && forall other | other in db.decisions :: !Clashes(db.decisions[other], d)
  }

  /** The lookup that ends the trigger function. */
  predicate Backed(db: Database, key: CounterKey, row: Counter) {
    && row.lastDecision in db.decisions
    && var d := db.decisions[row.lastDecision];
    && d.request == row.lastRequest && d.preparation == row.lastPreparation
    && d.policy == key.policy && d.window == key.window
    && d.disposition == Admitted && d.after == row.admitted && d.before == row.admitted - 1
  }

  predicate CounterChecks(db: Database, key: CounterKey, row: Counter) {
    && key.policy in db.policies && row.lastDecision in db.decisions
    && key.window.start < key.window.end && 1 <= row.admitted <= LIMIT
  }

  // ---- statements

  datatype Statement =
    | InsertPolicy(policy: Policy)
    | DeletePolicy(policy: Policy)
    | InsertDecision(id: Id, decision: Decision)
    | UpdateDecision(id: Id, decision: Decision)
    | DeleteDecision(id: Id)
    | InsertCounter(key: CounterKey, row: Counter)
    | UpdateCounter(key: CounterKey, newKey: CounterKey, row: Counter)
    | DeleteCounter(key: CounterKey)

  /** Whether the statement raises. */
  predicate Rejected(db: Database, s: Statement) {
    match s
    case InsertPolicy(p) => exists other | other in db.policies :: SameRevision(other, p)
    case DeletePolicy(p) => p in db.policies
    case InsertDecision(id, d) => !DecisionInsertable(db, id, d)
    case UpdateDecision(id, _) => id in db.decisions
    case DeleteDecision(id) => id in db.decisions
    case InsertCounter(key, row) =>
      key in db.counters || row.admitted != 1 || !Backed(db, key, row) || !CounterChecks(db, key, row)
    case UpdateCounter(key, newKey, row) =>
      && key in db.counters
      && (newKey != key || row.admitted != db.counters[key].admitted + 1
          || !Backed(db, key, row) || !CounterChecks(db, key, row))
    case DeleteCounter(key) => key in db.counters
  }

  /** A row trigger fires per row, so a statement that matches no row does nothing. */
  function Execute(db: Database, s: Statement): Database {
    if Rejected(db, s) then db
    else
      match s
      case InsertPolicy(p) => db.(policies := db.policies + {p})
      case InsertDecision(id, d) => db.(decisions := db.decisions[id := d])
      case InsertCounter(key, row) => db.(counters := db.counters[key := row])
      case UpdateCounter(key, _, row) =>
        if key in db.counters then db.(counters := db.counters[key := row]) else db
      case DeletePolicy(_) => db
      case UpdateDecision(_, _) => db
      case DeleteDecision(_) => db
      case DeleteCounter(_) => db
  }

  function ExecuteAll(db: Database, ss: seq<Statement>): Database
    decreases |ss|
  {
    if ss == [] then db else ExecuteAll(Execute(db, ss[0]), ss[1..])
  }

  // ---- what each insert demands, column by column

  /** The row satisfies the table's check constraints. */
  predicate SoundRow(d: Decision) {
    && d.window.start < d.window.end && d.window.start <= d.observedAt && d.observedAt < d.window.end
    && d.evaluatedAt == d.observedAt && d.committedAt >= d.evaluatedAt
    && 0 <= d.before <= 1000000 && 0 <= d.after <= 1000000
    && (d.disposition == Admitted ==> d.retryAfter == None && d.after == d.before + 1)
    && (d.disposition == Denied ==> d.retryAfter.Some? && 1 <= d.retryAfter.value <= 86400 && d.after == d.before)
  }

  /** Within one tenant and organization all four of a decision's names are its own. */
  predicate NamesDiffer(a: Decision, b: Decision) {
    a.policy.tenant == b.policy.tenant && a.policy.org == b.policy.org ==>
      a.request != b.request && a.preparation != b.preparation && a.reference != b.reference && a.digest != b.digest
  }

  /** A decision is stored exactly when it is new, its policy exists, its row is sound and its
      names are unused; then nothing else changes. */
  lemma DecisionStoredIff(db: Database, id: Id, d: Decision)
    ensures Execute(db, InsertDecision(id, d)) ==
            if id !in db.decisions && d.policy in db.policies && SoundRow(d)
               && forall other | other in db.decisions :: NamesDiffer(db.decisions[other], d)
            then db.(decisions := db.decisions[id := d]) else db
  {
    forall other | other in db.decisions
      ensures Clashes(db.decisions[other], d) <==> !NamesDiffer(db.decisions[other], d)
    {
    }
    assert DecisionChecks(d) <==> SoundRow(d);
    hide DecisionChecks, SoundRow, Clashes, NamesDiffer;
  }

  /** A policy is stored exactly when no stored one agrees in everything but the reference. */
  lemma PolicyStoredIff(db: Database, p: Policy)
    ensures Execute(db, InsertPolicy(p)) ==
            if forall q | q in db.policies ::
                 !(q.tenant == p.tenant && q.org == p.org && q.principal == p.principal && q.operation == p.operation
                   && q.classification == p.classification && q.policyId == p.policyId && q.revision == p.revision)
            then db.(policies := db.policies + {p}) else db
  {
    forall q | q in db.policies
      ensures SameRevision(q, p) <==>
              q.tenant == p.tenant && q.org == p.org && q.principal == p.principal && q.operation == p.operation
              && q.classification == p.classification && q.policyId == p.policyId && q.revision == p.revision
    { }
  }

  /** The decision a counter row names took this very window one step, to the row's count. */
  predicate Earned(db: Database, key: CounterKey, row: Counter) {
    && row.lastDecision in db.decisions
    && var d := db.decisions[row.lastDecision];
    && d.policy == key.policy && d.window == key.window && d.disposition == Admitted
    && d.request == row.lastRequest && d.preparation == row.lastPreparation
    && d.before + 1 == row.admitted && d.after == row.admitted
  }

  /** A counter moves exactly one earned step at a time, from nothing to one and within its
      bounds; every other insert, update or deletion changes nothing. */
  lemma CounterMovesIff(db: Database, s: Statement)
    requires s.InsertCounter? || s.UpdateCounter? || s.DeleteCounter?
    ensures Execute(db, s) ==
            if && !s.DeleteCounter?
               && (if s.InsertCounter? then s.key !in db.counters && s.row.admitted == 1
                   else s.key in db.counters && s.newKey == s.key && s.row.admitted == db.counters[s.key].admitted + 1)
               && Earned(db, s.key, s.row)
               && s.key.policy in db.policies && s.key.window.start < s.key.window.end && 1 <= s.row.admitted <= 1000000
            then db.(counters := db.counters[s.key := s.row]) else db
  {
  }

  /** Policies and decisions are append-only: changing or deleting a stored row raises, and
      naming no row does nothing. */
  lemma StoredRowsAreImmutable(db: Database, s: Statement)
    requires s.DeletePolicy? || s.UpdateDecision? || s.DeleteDecision?
    ensures Execute(db, s) == db
    ensures Rejected(db, s) <==> if s.DeletePolicy? then s.policy in db.policies else s.id in db.decisions
  {
  }

  // ---- the inductive protocol

  /** A decision that took this counter's window from k - 1 to k. */
  predicate Lifts(d: Decision, key: CounterKey, k: int) {
    && d.policy == key.policy && d.window == key.window && d.disposition == Admitted
    && d.before == k - 1 && d.after == k
  }

  predicate Lifted(db: Database, key: CounterKey, k: int) {
    exists id | id in db.decisions :: Lifts(db.decisions[id], key, k)
  }

  ghost predicate Traced(db: Database, key: CounterKey)
    requires key in db.counters
  {
    && 1 <= db.counters[key].admitted <= LIMIT
    && forall k | 1 <= k <= db.counters[key].admitted :: Lifted(db, key, k)
  }

  ghost predicate Inv(db: Database) {
    && (forall id | id in db.decisions :: DecisionChecks(db.decisions[id]) && db.decisions[id].policy in db.policies)
    && (forall i, j | i in db.decisions && j in db.decisions && i != j :: !Clashes(db.decisions[i], db.decisions[j]))
    && (forall key | key in db.counters :: Traced(db, key))
  }

  /** Decisions stay, counters stay and never go down. */
  ghost predicate Monotone(a: Database, b: Database) {
    && a.policies <= b.policies
    && (forall id | id in a.decisions :: id in b.decisions && b.decisions[id] == a.decisions[id])
    && (forall key | key in a.counters :: key in b.counters && a.counters[key].admitted <= b.counters[key].admitted)
  }

  lemma StepMonotone(db: Database, s: Statement)
    ensures Monotone(db, Execute(db, s))
  {
  }

  lemma LiftedPersists(a: Database, b: Database, key: CounterKey, k: int)
    requires Monotone(a, b) && Lifted(a, key, k)
    ensures Lifted(b, key, k)
  {
  }

  lemma BackedLifts(db: Database, key: CounterKey, row: Counter)
    requires Backed(db, key, row)
    ensures Lifted(db, key, row.admitted)
  {
  }

  lemma StepKeepsTrace(db: Database, s: Statement, key: CounterKey)
    requires Inv(db) && key in Execute(db, s).counters
    ensures Traced(Execute(db, s), key)
  {
    var after := Execute(db, s);
    var row := after.counters[key];
    StepMonotone(db, s);
    forall k | 1 <= k <= row.admitted ensures Lifted(after, key, k) {
      if key in db.counters && k <= db.counters[key].admitted {
        assert Traced(db, key);
        LiftedPersists(db, after, key, k);
      } else {
        assert after.decisions == db.decisions && k == row.admitted;
        BackedLifts(db, key, row);
        LiftedPersists(db, after, key, k);
      }
    }
    assert key in db.counters ==> Traced(db, key);
  }

  lemma StepKeeps(db: Database, s: Statement)
    requires Inv(db)
    ensures Inv(Execute(db, s))
  {
    forall key | key in Execute(db, s).counters ensures Traced(Execute(db, s), key) {
      StepKeepsTrace(db, s, key);
    }
    hide Traced;
    var after := Execute(db, s);
    if s.InsertDecision? && !Rejected(db, s) {
      forall i, j | i in after.decisions && j in after.decisions && i != j
        ensures !Clashes(after.decisions[i], after.decisions[j])
      {
        if j == s.id {
          assert !Clashes(db.decisions[i], s.decision);
        } else if i == s.id {
          assert !Clashes(db.decisions[j], s.decision);
        }
      }
    } else {
      assert after.decisions == db.decisions && db.policies <= after.policies;
    }
  }

  /** Every reachable database satisfies the protocol, and nothing counted is ever
      uncounted: no counter decreases or disappears. */
  lemma {:induction false} RunKeeps(db: Database, ss: seq<Statement>)
    requires Inv(db)
    ensures Inv(ExecuteAll(db, ss)) && Monotone(db, ExecuteAll(db, ss))
    decreases |ss|
  {
    if ss != [] {
      StepKeeps(db, ss[0]);
      StepMonotone(db, ss[0]);
      RunKeeps(Execute(db, ss[0]), ss[1..]);
    }
  }

  /** In every reachable database the stored decisions are sound, and no two share a name. */
  lemma ReachableDecisionsAreSound(ss: seq<Statement>, i: Id, j: Id)
    ensures var db := ExecuteAll(EMPTY, ss);
            && (i in db.decisions ==> SoundRow(db.decisions[i]) && db.decisions[i].policy in db.policies)
            && (i in db.decisions && j in db.decisions && i != j ==> NamesDiffer(db.decisions[i], db.decisions[j]))
  {
    RunKeeps(EMPTY, ss);
    var db := ExecuteAll(EMPTY, ss);
    assert i in db.decisions ==> DecisionChecks(db.decisions[i]);
    assert i in db.decisions && j in db.decisions && i != j ==> !Clashes(db.decisions[i], db.decisions[j]);
  }

  // ---- what a counter at n proves

  /** The admitted decisions of one policy revision and window. */
  function AdmittedIds(db: Database, key: CounterKey): (ids: set<Id>)
    ensures forall id :: id in ids <==>
              id in db.decisions && db.decisions[id].policy == key.policy && db.decisions[id].window == key.window
              && db.decisions[id].disposition == Admitted
  {
    set id | id in db.decisions && db.decisions[id].policy == key.policy
             && db.decisions[id].window == key.window && db.decisions[id].disposition == Admitted
  }

  function AdmittedRequests(db: Database, key: CounterKey): (requests: set<Id>)
    ensures forall r :: r in requests <==> exists id :: id in AdmittedIds(db, key) && db.decisions[id].request == r
  {
    set id | id in AdmittedIds(db, key) :: db.decisions[id].request
  }

  /** Requests admitted while the counter stood below n. */
  function RequestsBelow(db: Database, key: CounterKey, n: nat): set<Id> {
    set id | id in db.decisions && db.decisions[id].policy == key.policy
             && db.decisions[id].window == key.window && db.decisions[id].disposition == Admitted
             && db.decisions[id].after <= n
      :: db.decisions[id].request
  }

  lemma {:induction false} DistinctRequestsBelow(db: Database, key: CounterKey, n: nat)
    requires Inv(db)
    requires forall k | 1 <= k <= n :: Lifted(db, key, k)
    ensures |RequestsBelow(db, key, n)| >= n
  {
    if n > 0 {
      DistinctRequestsBelow(db, key, n - 1);
      assert Lifted(db, key, n);
      var id :| id in db.decisions && Lifts(db.decisions[id], key, n);
      var request := db.decisions[id].request;
      var lower := RequestsBelow(db, key, n - 1);
      if request in lower {
        var other :| other in db.decisions && db.decisions[other].policy == key.policy
                     && db.decisions[other].after <= n - 1 && db.decisions[other].request == request;
        assert Clashes(db.decisions[other], db.decisions[id]);
      }
      var upper := RequestsBelow(db, key, n);
      assert lower + {request} <= upper;
      SubsetIsSmaller(lower + {request}, upper);
    }
  }

  /** In every state the statements can reach, a counter at n stands on n steps, each a
      decision that lifted the same window by one, hence on at least n distinct admitted
      requests, all observed inside the window. */
  lemma CounterIsEarned(ss: seq<Statement>, key: CounterKey)
    ensures var db := ExecuteAll(EMPTY, ss);
            key in db.counters ==>
              var n := db.counters[key].admitted;
              && 1 <= n
              && (forall k | 1 <= k <= n :: Lifted(db, key, k))
              && |AdmittedRequests(db, key)| >= n
              && (forall id | id in db.decisions && db.decisions[id].window == key.window ::
                    key.window.start <= db.decisions[id].observedAt < key.window.end)
  {
    RunKeeps(EMPTY, ss);
    var db := ExecuteAll(EMPTY, ss);
    if key in db.counters {
      assert Traced(db, key);
      var n := db.counters[key].admitted;
      DistinctRequestsBelow(db, key, n);
      SubsetIsSmaller(RequestsBelow(db, key, n), AdmittedRequests(db, key));
    }
  }

  /** The trigger does not make admissions exclusive: two requests can both be admitted
      from 0 to 1 while the counter stays at 1. */
  lemma AdmissionsMayOutnumberCounter(p: Policy)
    ensures var w := Window(0, 60);
            var a := Decision(p, w, 1, 1, "a", "a", 5, 5, 5, Admitted, None, 0, 1);
            var b := Decision(p, w, 2, 2, "b", "b", 6, 6, 6, Admitted, None, 0, 1);
            var key := CounterKey(p, w);
            var db := ExecuteAll(EMPTY, [InsertPolicy(p), InsertDecision(10, a), InsertDecision(11, b),
                                         InsertCounter(key, Counter(1, 10, 1, 1))]);
            key in db.counters && db.counters[key].admitted == 1 && AdmittedRequests(db, key) == {1, 2}
  {
    var w := Window(0, 60);
    var a := Decision(p, w, 1, 1, "a", "a", 5, 5, 5, Admitted, None, 0, 1);
    var b := Decision(p, w, 2, 2, "b", "b", 6, 6, 6, Admitted, None, 0, 1);
    var key := CounterKey(p, w);
    var s3 := InsertCounter(key, Counter(1, 10, 1, 1));
    var db1 := Execute(EMPTY, InsertPolicy(p));
    var db2 := Execute(db1, InsertDecision(10, a));
    assert db2 == Database({p}, map[10 := a], map[]);
    assert "a"[0] != "b"[0];
    assert !Clashes(a, b);
    var db3 := Execute(db2, InsertDecision(11, b));
    assert db3 == Database({p}, map[10 := a, 11 := b], map[]);
    var db4 := Execute(db3, s3);
    assert Backed(db3, key, Counter(1, 10, 1, 1));
    assert db4 == Database({p}, map[10 := a, 11 := b], map[key := Counter(1, 10, 1, 1)]);
    assert AdmittedRequests(db4, key) == {1, 2} by {
      assert db4.decisions[10].request == 1 && db4.decisions[11].request == 2;
    }
    var ss := [InsertPolicy(p), InsertDecision(10, a), InsertDecision(11, b), s3];
    assert ss[1..][1..][1..] == [s3] && ss[1..][1..] == [InsertDecision(11, b), s3];
    calc {
      ExecuteAll(EMPTY, ss);
      ExecuteAll(db1, ss[1..]);
      ExecuteAll(db2, ss[1..][1..]);
      ExecuteAll(db3, [s3]);
      ExecuteAll(db4, []);
      db4;
    }
  }

  // ---- exactly when the counter counts the admissions

  /** The counter of a window, zero before its first row. */
  function CounterAt(db: Database, key: CounterKey): int {
    if key in db.counters then db.counters[key].admitted else 0
  }

  /** No admission goes past the counter, and no two admissions claim the same step. */
  predicate OneForEachStep(db: Database, key: CounterKey) {
    && (forall id | id in AdmittedIds(db, key) :: db.decisions[id].after <= CounterAt(db, key))
    && (forall i, j | i in AdmittedIds(db, key) && j in AdmittedIds(db, key) && i != j ::
          db.decisions[i].after != db.decisions[j].after)
  }

  predicate CounterIsExact(db: Database, key: CounterKey) {
    |AdmittedRequests(db, key)| == CounterAt(db, key)
  }

  function Steps(n: int): (steps: set<int>)
    ensures forall k :: k in steps <==> 1 <= k <= n
    decreases n
  {
    if n <= 0 then {} else Steps(n - 1) + {n}
  }

  lemma {:induction false} StepsCount(n: int)
    requires n >= 0
    ensures |Steps(n)| == n
  {
    if n > 0 {
      StepsCount(n - 1);
    }
  }

  /** Different admissions are different requests. */
  lemma AdmissionsAreRequests(db: Database, key: CounterKey)
    requires Inv(db)
    ensures |AdmittedRequests(db, key)| == |AdmittedIds(db, key)|
  {
    var requests := map id | id in AdmittedIds(db, key) :: db.decisions[id].request;
    forall i, j | i in requests && j in requests && requests[i] == requests[j] ensures i == j {
      assert i != j ==> Clashes(db.decisions[i], db.decisions[j]);
    }
    hide Inv;
    assert requests.Keys == AdmittedIds(db, key);
    forall r ensures r in AdmittedRequests(db, key) <==> r in ValuesOf(requests) {
      if r in AdmittedRequests(db, key) {
        var id :| id in AdmittedIds(db, key) && db.decisions[id].request == r;
        assert id in requests && requests[id] == r;
      }
      if r in ValuesOf(requests) {
        var id := KeyOfValue(requests, r);
      }
    }
    assert AdmittedRequests(db, key) == ValuesOf(requests);
    ValuesSizeIff(requests);
  }

  /** The steps the admissions of a window claim. */
  function Claimed(db: Database, key: CounterKey): (claimed: set<int>)
    ensures forall k :: k in claimed <==> exists id :: id in AdmittedIds(db, key) && db.decisions[id].after == k
  {
    set id | id in AdmittedIds(db, key) :: db.decisions[id].after
  }

  lemma ClaimedSizeIff(db: Database, key: CounterKey)
    ensures |Claimed(db, key)| <= |AdmittedIds(db, key)|
    ensures |Claimed(db, key)| == |AdmittedIds(db, key)| <==>
            forall i, j | i in AdmittedIds(db, key) && j in AdmittedIds(db, key) && i != j ::
              db.decisions[i].after != db.decisions[j].after
  {
    hide AdmittedIds;
    var ids := AdmittedIds(db, key);
    var afters := map id | id in ids :: db.decisions[id].after;
    assert afters.Keys == ids;
    forall k ensures k in Claimed(db, key) <==> k in ValuesOf(afters) {
      if k in Claimed(db, key) {
        var id :| id in ids && db.decisions[id].after == k;
        assert id in afters && afters[id] == k;
      }
      if k in ValuesOf(afters) {
        var id := KeyOfValue(afters, k);
      }
    }
    assert Claimed(db, key) == ValuesOf(afters);
    ValuesSizeIff(afters);
    if Injective(afters) {
      forall i, j | i in ids && j in ids && i != j ensures db.decisions[i].after != db.decisions[j].after {
        assert i in afters && j in afters && afters[i] != afters[j];
      }
    }
    if forall i, j | i in ids && j in ids && i != j :: db.decisions[i].after != db.decisions[j].after {
      assert Injective(afters);
    }
  }

  /** Every step up to the counter is claimed; no other is exactly when none goes past it. */
  lemma StepsAreClaimed(db: Database, key: CounterKey)
    requires Inv(db)
    ensures CounterAt(db, key) >= 0 && Steps(CounterAt(db, key)) <= Claimed(db, key)
    ensures Steps(CounterAt(db, key)) == Claimed(db, key) <==>
            forall id | id in AdmittedIds(db, key) :: db.decisions[id].after <= CounterAt(db, key)
  {
    var n := CounterAt(db, key);
    assert key in db.counters ==> Traced(db, key);
    forall k | 1 <= k <= n ensures k in Claimed(db, key) {
      assert Lifted(db, key, k);
      var id :| id in db.decisions && Lifts(db.decisions[id], key, k);
      assert id in AdmittedIds(db, key);
    }
    forall id | id in AdmittedIds(db, key) ensures 1 <= db.decisions[id].after && db.decisions[id].after in Claimed(db, key) {
      assert DecisionChecks(db.decisions[id]);
    }
  }

  /** In a consistent database the counter of a window is the number of its admissions
      exactly when no admission goes past it and no two claim the same step. */
  lemma CounterIsExactIff(db: Database, key: CounterKey)
    requires Inv(db)
    ensures CounterIsExact(db, key) <==> OneForEachStep(db, key)
  {
    hide Inv, AdmittedRequests, AdmittedIds, Claimed, Steps;
    AdmissionsAreRequests(db, key);
    ClaimedSizeIff(db, key);
    StepsAreClaimed(db, key);
    StepsCount(CounterAt(db, key));
    SubsetIsSmaller(Steps(CounterAt(db, key)), Claimed(db, key));
  }

  /** The same for every database the statements can reach. */
  lemma ReachableCounterIsExactIff(ss: seq<Statement>, key: CounterKey)
    ensures var db := ExecuteAll(EMPTY, ss); CounterIsExact(db, key) <==> OneForEachStep(db, key)
  {
    RunKeeps(EMPTY, ss);
    CounterIsExactIff(ExecuteAll(EMPTY, ss), key);
  }

  /** The statement that moves a window's counter to a row. */
  function CounterStep(db: Database, key: CounterKey, row: Counter): Statement {
    if key in db.counters then UpdateCounter(key, key, row) else InsertCounter(key, row)
  }

  /** The one row a decision backs. */
  function RowOf(id: Id, d: Decision): Counter {
    Counter(d.after, id, d.request, d.preparation)
  }

  lemma RequestsGrow(a: Database, b: Database, key: CounterKey, id: Id)
    requires AdmittedIds(b, key) == AdmittedIds(a, key) + {id}
    requires forall i | i in AdmittedIds(a, key) :: b.decisions[i] == a.decisions[i]
    ensures AdmittedRequests(b, key) == AdmittedRequests(a, key) + {b.decisions[id].request}
  {
    assert id in AdmittedIds(b, key);
    forall r | r in AdmittedRequests(a, key) ensures r in AdmittedRequests(b, key) {
      var i :| i in AdmittedIds(a, key) && a.decisions[i].request == r;
      assert i in AdmittedIds(b, key) && b.decisions[i].request == r;
    }
  }

  lemma AdmissionAddsRequest(db: Database, id: Id, d: Decision)
    requires DecisionInsertable(db, id, d) && d.disposition == Admitted
    ensures var key := CounterKey(d.policy, d.window);
            |AdmittedRequests(Execute(db, InsertDecision(id, d)), key)| == |AdmittedRequests(db, key)| + 1
  {
    var key := CounterKey(d.policy, d.window);
    var after := Execute(db, InsertDecision(id, d));
    assert forall other | other in AdmittedIds(db, key) :: !Clashes(db.decisions[other], d);
    assert after.decisions == db.decisions[id := d] && id !in db.decisions;
    hide DecisionInsertable, Execute, AdmittedRequests;
    assert d.request !in AdmittedRequests(db, key);
    assert AdmittedIds(after, key) == AdmittedIds(db, key) + {id};
    RequestsGrow(db, after, key, id);
  }

  lemma CounterStepMoves(db: Database, id: Id, d: Decision, row: Counter)
    requires Inv(db) && DecisionInsertable(db, id, d) && d.disposition == Admitted && row.lastDecision == id
    ensures var key := CounterKey(d.policy, d.window);
            var admitted := Execute(db, InsertDecision(id, d));
            var moved := Execute(admitted, CounterStep(admitted, key, row));
            && moved.decisions == admitted.decisions
            && CounterAt(moved, key) == CounterAt(db, key)
               + if d.before == CounterAt(db, key) && row == RowOf(id, d) then 1 else 0
  {
    var key := CounterKey(d.policy, d.window);
    assert key in db.counters ==> Traced(db, key);
  }

  /** For a caller: when the counter counts the admissions, admitting one more request and
      then trying any counter row that names it keeps that so exactly when the decision
      starts from the current counter and the row is the one it backs. */
  lemma AdmissionKeepsCounterExactIff(db: Database, id: Id, d: Decision, row: Counter)
    requires Inv(db) && DecisionInsertable(db, id, d) && d.disposition == Admitted && row.lastDecision == id
    requires CounterIsExact(db, CounterKey(d.policy, d.window))
    ensures var key := CounterKey(d.policy, d.window);
            var admitted := Execute(db, InsertDecision(id, d));
            CounterIsExact(Execute(admitted, CounterStep(admitted, key, row)), key) <==>
            d.before == CounterAt(db, key) && row == RowOf(id, d)
  {
    AdmissionAddsRequest(db, id, d);
    CounterStepMoves(db, id, d, row);
    var key := CounterKey(d.policy, d.window);
    var admitted := Execute(db, InsertDecision(id, d));
    RequestsDependOnDecisions(admitted, Execute(admitted, CounterStep(admitted, key, row)), key);
    hide Execute, CounterStep, AdmittedRequests, DecisionInsertable, Inv;
  }

  lemma RequestsDependOnDecisions(a: Database, b: Database, key: CounterKey)
    requires a.decisions == b.decisions
    ensures AdmittedRequests(a, key) == AdmittedRequests(b, key)
  {
  }

  // ---- the tables

  class RateTables {
    var policies: set<Policy>
    var decisions: map<Id, Decision>
    var counters: map<CounterKey, Counter>

    ghost function State(): Database
      reads this
    {
      Database(policies, decisions, counters)
    }

    constructor ()
      ensures State() == EMPTY
    {
      policies, decisions, counters := {}, map[], map[];
    }

    /** The BEFORE trigger: raises unless the move is one backed step of the same row. */
    method Guard(oldRow: Option<(CounterKey, Counter)>, newRow: Option<(CounterKey, Counter)>) returns (ok: bool)
      requires oldRow.Some? || newRow.Some?
      ensures ok <==> newRow.Some? && Backed(State(), newRow.value.0, newRow.value.1)
                      && (if oldRow.None? then newRow.value.1.admitted == 1
                          else newRow.value.0 == oldRow.value.0
                               && newRow.value.1.admitted == oldRow.value.1.admitted + 1)
    {
      if newRow.None? { return false; }
      var (key, row) := newRow.value;
      if oldRow.None? && row.admitted != 1 { return false; }
      if oldRow.Some? && (key != oldRow.value.0 || row.admitted != oldRow.value.1.admitted + 1) { return false; }
      if row.lastDecision !in decisions { return false; }
      var d := decisions[row.lastDecision];
      return d.request == row.lastRequest && d.preparation == row.lastPreparation && d.policy == key.policy
      && d.window == key.window && d.disposition == Admitted && d.after == row.admitted && d.before == row.admitted - 1;
    }

    method Insert(key: CounterKey, row: Counter) returns (ok: bool)
      modifies this
      ensures State() == Execute(old(State()), InsertCounter(key, row))
      ensures ok <==> !Rejected(old(State()), InsertCounter(key, row))
    {
      ok := Guard(None, Some((key, row)));
      if !ok || key in counters || !CounterChecks(Database(policies, decisions, counters), key, row) { return false; }
      counters := counters[key := row];
    }

    method Update(key: CounterKey, newKey: CounterKey, row: Counter) returns (ok: bool)
      modifies this
      ensures State() == Execute(old(State()), UpdateCounter(key, newKey, row))
      ensures ok <==> !Rejected(old(State()), UpdateCounter(key, newKey, row))
    {
      if key !in counters { return true; }
      ok := Guard(Some((key, counters[key])), Some((newKey, row)));
      if !ok || !CounterChecks(Database(policies, decisions, counters), newKey, row) { return false; }
      counters := counters[newKey := row];
    }

    method Delete(key: CounterKey) returns (ok: bool)
      ensures State() == Execute(old(State()), DeleteCounter(key))
      ensures ok <==> !Rejected(old(State()), DeleteCounter(key))
    {
      if key !in counters { return true; }
      ok := Guard(Some((key, counters[key])), None);
    }

    method AddPolicy(p: Policy) returns (ok: bool)
      modifies this
      ensures State() == Execute(old(State()), InsertPolicy(p))
      ensures ok <==> !Rejected(old(State()), InsertPolicy(p))
    {
      ok := !exists other | other in policies :: SameRevision(other, p);
      if ok { policies := policies + {p}; }
    }

    method AddDecision(id: Id, d: Decision) returns (ok: bool)
      modifies this
      ensures State() == Execute(old(State()), InsertDecision(id, d))
      ensures ok <==> !Rejected(old(State()), InsertDecision(id, d))
    {
      ok := DecisionInsertable(Database(policies, decisions, counters), id, d);
      if ok { decisions := decisions[id := d]; }
    }
  }
}
