/** One synchronization run as a database transaction: start and commit the state
    row, ingest every record, complete and commit; on any failure roll back, fail the
    state row and commit that instead. Every awaited database call may fail. */
module SyncIngestion {
  import opened Common
  import S = SyncState
  import K = Knowledge
  import L = KnowledgeLaws

  datatype Configuration = Configuration(id: Id, enabled: bool, syncEnabled: bool)

  datatype Audit = Audit(
    org: Id, configuration: Id, syncKey: string, correlation: string,
    pages: int, results: int, succeeded: bool, errorCode: Option<string>)

  datatype World = World(
    configurations: map<(Id, string), Configuration>,
    knowledge: K.Tables,
    states: S.Table,
    audits: seq<Audit>)

  /** A payload either normalizes to a record or makes normalization raise. */
  type Payload = Option<K.Record>

  datatype Context = Context(org: Id, correlation: string)

  datatype Request = Request(
    context: Context, connector: string, syncKey: string, payloads: seq<Payload>, finalCursor: Option<string>)

  const FAILURE_CODE := "connector_ingestion_failed"
  const FAILURE_SUMMARY := "Connector record ingestion failed"

  /** No database call at an instant of the interval fails. */
  ghost predicate Calm(faults: nat -> bool, from: nat, to: nat) {
    forall i | from <= i < to :: !faults(i)
  }

  // ---- the specification of a run

  predicate Available(w: World, q: Request) {
    var name := (q.context.org, q.connector);
    name in w.configurations && w.configurations[name].enabled && w.configurations[name].syncEnabled
  }

  function KeyOf(w: World, q: Request): S.Key
    requires Available(w, q)
  {
    S.Key(q.context.org, w.configurations[(q.context.org, q.connector)].id, q.syncKey)
  }

  predicate Startable(w: World, q: Request) {
    Available(w, q) && !S.RunningAt(w.states, KeyOf(w, q))
  }

  function Previous(w: World, q: Request): S.State
    requires Available(w, q)
  {
    var k := KeyOf(w, q);
    if k in w.states then w.states[k] else S.FRESH
  }

  predicate Normalizes(payloads: seq<Payload>) {
    forall p | p in payloads :: p.Some?
  }

  function Records(payloads: seq<Payload>): (rs: seq<K.Record>)
    requires Normalizes(payloads)
    ensures |rs| == |payloads|
  {
    seq(|payloads|, i requires 0 <= i < |payloads| => payloads[i].value)
  }

  /** The records go in: they normalize and violate no constraint. */
  predicate Ingestible(k: K.Tables, org: Id, payloads: seq<Payload>) {
    Normalizes(payloads) && K.IngestedAll(k, org, Records(payloads)).Ok?
  }

  datatype Outcome = Refused | Succeeded | FailureRecorded | FailureUnrecorded

  /** Nothing was committed. */
  ghost predicate Untouched(w: World, w': World) {
    w' == w
  }

  /** Everything but one state row and the audit log is as before. */
  ghost predicate SameElsewhere(w: World, w': World, q: Request)
    requires Available(w, q)
  {
    var k := KeyOf(w, q);
    && w'.configurations == w.configurations
    && w'.states.Keys == w.states.Keys + {k}
    && forall other | other in w.states && other != k :: w'.states[other] == w.states[other]
  }

  ghost predicate Processed(s: S.State, processed: nat, created: nat, skipped: nat, pages: nat) {
    s.counters == Tally(processed, created, skipped, pages)
  }

  /** Every record's effect, a succeeded state with the advanced cursor, one audit row. */
  ghost predicate AllApplied(w: World, w': World, q: Request)
    requires Available(w, q)
  {
    var k := KeyOf(w, q);
    && SameElsewhere(w, w', q)
    && Ingestible(w.knowledge, q.context.org, q.payloads)
    && var (tables, created) := K.IngestedAll(w.knowledge, q.context.org, Records(q.payloads)).value;
    && w'.knowledge == tables
    && created <= |q.payloads|
    && var s := w'.states[k];
    && s.status == S.Succeeded && s.pendingCursor.None? && s.errorCode.None?
    && s.lastCursor == (if q.finalCursor.Some? then q.finalCursor else Previous(w, q).lastCursor)
    && s.lastCompletedAt.Some? && s.lastSuccessfulAt == s.lastCompletedAt
    && s.correlation == Some(q.context.correlation)
    && Processed(s, |q.payloads|, created, |q.payloads| - created, 1)
    && w'.audits == w.audits
       + [Audit(k.org, k.configuration, k.syncKey, q.context.correlation, 1, |q.payloads|, true, None)]
  }

  /** The knowledge tables exactly as they were, a failed state that kept its cursor
      and has all counters at zero, one audit row. */
  ghost predicate NothingApplied(w: World, w': World, q: Request)
    requires Available(w, q)
  {
    var k := KeyOf(w, q);
    && SameElsewhere(w, w', q)
    && w'.knowledge == w.knowledge
    && var s := w'.states[k];
    && s.status == S.Failed && s.pendingCursor.None?
    && s.errorCode == Some(FAILURE_CODE) && s.errorSummary == Some(FAILURE_SUMMARY)
    && s.lastCursor == Previous(w, q).lastCursor && s.lastSuccessfulAt == Previous(w, q).lastSuccessfulAt
    && s.counters == S.ZERO
    && w'.audits == w.audits
       + [Audit(k.org, k.configuration, k.syncKey, q.context.correlation, 0, 0, false, Some(FAILURE_CODE))]
  }

  /** The recovery handler itself failed: only the committed start remains. */
  ghost predicate LeftRunning(w: World, w': World, q: Request)
    requires Available(w, q)
  {
    && SameElsewhere(w, w', q)
    && w'.knowledge == w.knowledge && w'.audits == w.audits
    && var s := w'.states[KeyOf(w, q)];
    && s.status == S.Running && s.lastCursor == Previous(w, q).lastCursor && s.counters == S.ZERO
  }

  ghost predicate Explained(w: World, w': World, q: Request, o: Outcome) {
    match o
    case Refused => Untouched(w, w')
    case Succeeded => Startable(w, q) && AllApplied(w, w', q)
    case FailureRecorded => Startable(w, q) && NothingApplied(w, w', q)
    case FailureUnrecorded => Startable(w, q) && LeftRunning(w, w', q)
  }

  // ---- what every run guarantees

  /** All or nothing for the knowledge tables, whatever fails and wherever; exactly one
      audit row for every run whose handler completes. */
  lemma RunIsAllOrNothing(w: World, w': World, q: Request, o: Outcome)
    requires Explained(w, w', q, o)
    ensures w'.knowledge == w.knowledge
            || (o == Succeeded && Ingestible(w.knowledge, q.context.org, q.payloads)
                && w'.knowledge == K.IngestedAll(w.knowledge, q.context.org, Records(q.payloads)).value.0)
    ensures o in {Succeeded, FailureRecorded} ==> |w'.audits| == |w.audits| + 1 && w.audits <= w'.audits
    ensures o in {Refused, FailureUnrecorded} ==> w'.audits == w.audits
    ensures forall k | k in w.states :: k in w'.states
    ensures forall k | k in w.states && (o != Succeeded || !(Available(w, q) && k == KeyOf(w, q))) ::
              w'.states[k].lastCursor == w.states[k].lastCursor
  {
  }

  /** Whatever a run's outcome, the stored knowledge keeps its invariant, holds what it
      held before, and gains either every pair of the request or none. */
  lemma RunKeepsKnowledge(w: World, w': World, q: Request, o: Outcome, other: Id)
    requires Explained(w, w', q, o) && K.Inv(w.knowledge)
    ensures K.Inv(w'.knowledge)
    ensures L.Holdings(w'.knowledge, other) == L.Holdings(w.knowledge, other)
            || (o == Succeeded && other == q.context.org && Normalizes(q.payloads)
                && L.Holdings(w'.knowledge, other)
                   == L.Holdings(w.knowledge, other) + L.PairsOf(Records(q.payloads)))
  {
    if o == Succeeded {
      L.BatchIsUnion(w.knowledge, q.context.org, Records(q.payloads), other);
    }
  }

  /** Counters of a successful run: processed is created plus skipped, and created is
      the number of versions stored. */
  lemma SuccessCountsVersions(w: World, w': World, q: Request)
    requires K.Inv(w.knowledge) && Explained(w, w', q, Succeeded)
    ensures var c := w'.states[KeyOf(w, q)].counters;
            && c[S.Processed] == |q.payloads| == c[S.Created] + c[S.Skipped]
            && c[S.Created] == |w'.knowledge.versions| - |w.knowledge.versions|
  {
    hide K.Inv, K.IngestedAll, Records, SameElsewhere, L.Absorbed;
    L.BatchIsUnion(w.knowledge, q.context.org, Records(q.payloads), q.context.org);
    var (tables, created) := K.IngestedAll(w.knowledge, q.context.org, Records(q.payloads)).value;
    CreatedAreVersions(w.knowledge, tables, q.context.org, Records(q.payloads), created);
  }

  /** The row a request is about. */
  function NamedKey(w: World, q: Request): Option<S.Key> {
    var name := (q.context.org, q.connector);
    if name in w.configurations && w.configurations[name].enabled && w.configurations[name].syncEnabled
    then Some(S.Key(q.context.org, w.configurations[name].id, q.syncKey)) else None
  }

  /** A run starts exactly from an enabled configuration whose row is not running. */
  lemma StartableIff(w: World, q: Request)
    ensures Startable(w, q) <==>
            NamedKey(w, q).Some?
            && !(NamedKey(w, q).value in w.states && w.states[NamedKey(w, q).value].status == S.Running)
    ensures Available(w, q) ==> NamedKey(w, q) == Some(KeyOf(w, q))
  {
  }

  /** What a success reports beside its records: one page, and no other counter. */
  lemma SuccessIsReported(w: World, w': World, q: Request)
    requires Explained(w, w', q, Succeeded)
    ensures NamedKey(w, q).Some? && NamedKey(w, q).value in w'.states
    ensures var k, row := NamedKey(w, q).value, w'.states[NamedKey(w, q).value];
            && row.status == S.Succeeded && row.correlation == Some(q.context.correlation)
            && w'.audits == w.audits
                 + [Audit(k.org, k.configuration, k.syncKey, q.context.correlation, 1, |q.payloads|, true, None)]
            && row.counters.Keys == S.ZERO.Keys && row.counters[S.Pages] == 1
            && forall c | c in row.counters && c !in {S.Processed, S.Created, S.Skipped, S.Pages} :: row.counters[c] == 0
  {
    hide K.IngestedAll, Records, Normalizes;
  }

  /** What a recorded failure reports: its code, and nothing counted. */
  lemma FailureIsReported(w: World, w': World, q: Request)
    requires Explained(w, w', q, FailureRecorded)
    ensures NamedKey(w, q).Some? && NamedKey(w, q).value in w'.states
    ensures var k, row := NamedKey(w, q).value, w'.states[NamedKey(w, q).value];
            && row.status == S.Failed && row.errorCode == Some("connector_ingestion_failed")
            && row.errorSummary == Some("Connector record ingestion failed")
            && w'.audits == w.audits + [Audit(k.org, k.configuration, k.syncKey, q.context.correlation, 0, 0, false,
                                              Some("connector_ingestion_failed"))]
            && row.counters.Keys == S.ZERO.Keys && forall c | c in row.counters :: row.counters[c] == 0
  {
    hide K.IngestedAll, Records, Normalizes;
  }

  lemma CreatedAreVersions(k: K.Tables, k': K.Tables, org: Id, rs: seq<K.Record>, created: nat)
    requires L.Absorbed(k, k', org, rs, created, org)
    ensures created == |k'.versions| - |k.versions|
  {
  }

  /** A second successful run over the same payloads creates nothing and skips all. */
  lemma RerunSkipsEverything(w: World, w1: World, w2: World, q: Request, q2: Request)
    requires K.Inv(w.knowledge)
    requires Explained(w, w1, q, Succeeded) && Explained(w1, w2, q2, Succeeded)
    requires q2.payloads == q.payloads && q2.context.org == q.context.org
    ensures L.OnlyJobsAdded(w1.knowledge, w2.knowledge, |q.payloads|)
    ensures var c := w2.states[KeyOf(w1, q2)].counters; c[S.Created] == 0 && c[S.Skipped] == |q.payloads|
  {
    hide K.Inv, K.IngestedAll, L.OnlyJobsAdded, SameElsewhere;
    assert Records(q2.payloads) == Records(q.payloads);
    L.RerunAddsNothing(w.knowledge, q.context.org, Records(q.payloads));
  }

  /** The loop's own view of the batch: stop at the first payload that does not
      normalize or violates a constraint. */
  function Absorb(k: K.Tables, org: Id, payloads: seq<Payload>): Result<(K.Tables, nat), ()>
    decreases |payloads|
  {
    if payloads == [] then Ok((k, 0))
    else if payloads[0].None? then Err(())
    else
      match K.Ingested(k, org, payloads[0].value)
      case Err(_) => Err(())
      case Ok((k1, status)) => Plus(Absorb(k1, org, payloads[1..]), if status.Duplicate? then 0 else 1)
  }

  function Plus(r: Result<(K.Tables, nat), ()>, created: nat): Result<(K.Tables, nat), ()> {
    match r
    case Err(e) => Err(e)
    case Ok((k, n)) => Ok((k, n + created))
  }

  lemma RecordsHead(payloads: seq<Payload>)
    requires payloads != []
    ensures Normalizes(payloads) <==> payloads[0].Some? && Normalizes(payloads[1..])
    ensures Normalizes(payloads) ==>
              Records(payloads)[0] == payloads[0].value && Records(payloads)[1..] == Records(payloads[1..])
  {
    assert payloads == [payloads[0]] + payloads[1..];
  }

  lemma {:induction false} AbsorbIsIngestedAll(k: K.Tables, org: Id, payloads: seq<Payload>)
    ensures Absorb(k, org, payloads).Ok? <==> Ingestible(k, org, payloads)
    ensures Absorb(k, org, payloads).Ok? ==>
              Absorb(k, org, payloads).value == K.IngestedAll(k, org, Records(payloads)).value
    decreases |payloads|
  {
    hide K.Ingested, Normalizes, Records;
    if payloads == [] {
      NothingNormalizes();
    } else {
      RecordsHead(payloads);
      if payloads[0].Some? && K.Ingested(k, org, payloads[0].value).Ok? {
        AbsorbIsIngestedAll(K.Ingested(k, org, payloads[0].value).value.0, org, payloads[1..]);
      }
    }
  }

  lemma NothingNormalizes()
    ensures Normalizes([]) && Records([]) == []
  {
  }

  // ---- the database session

  class Session {
    var working: World
    var committed: World
    var clock: nat
    const faults: nat -> bool

    constructor (w: World, faults: nat -> bool)
      ensures working == committed == w && clock == 0 && this.faults == faults
    {
      working, committed, clock, this.faults := w, w, 0, faults;
    }

    /** One awaited database call. */
    method Call() returns (ok: bool)
      modifies `clock
      ensures clock == old(clock) + 1 && ok == !faults(old(clock))
    {
      ok := !faults(clock);
      clock := clock + 1;
    }

    method Commit() returns (ok: bool)
      modifies `clock, `committed
      ensures clock == old(clock) + 1 && ok == !faults(old(clock))
      ensures committed == if ok then working else old(committed)
    {
      ok := Call();
      if ok { committed := working; }
    }

    method Rollback() returns (ok: bool)
      modifies `clock, `working
      ensures clock == old(clock) + 1 && ok == !faults(old(clock))
      ensures working == committed
    {
      working := committed;
      ok := Call();
    }

    /** Inserts the source row unless a unique constraint rejects it. */
    method AddSource(row: K.Source) returns (r: Option<nat>)
      modifies `clock, `working
      ensures clock == old(clock) + 1
      ensures r.Some? <==> !faults(old(clock)) && K.SourceAdmissible(old(working).knowledge, row)
      ensures r.Some? ==> r.value == |old(working).knowledge.sources|
      ensures r.Some? ==> working == old(working).(knowledge := old(working).knowledge.(
                            sources := old(working).knowledge.sources + [row]))
      ensures r.None? ==> working == old(working)
    {
      var ok := Call();
      if !ok || !K.SourceAdmissible(working.knowledge, row) { return None; }
      r := Some(|working.knowledge.sources|);
      working := working.(knowledge := working.knowledge.(sources := working.knowledge.sources + [row]));
    }

    method AddDocument(row: K.Document) returns (r: Option<nat>)
      modifies `clock, `working
      ensures clock == old(clock) + 1
      ensures r.Some? <==> !faults(old(clock)) && K.DocumentAdmissible(old(working).knowledge, row)
      ensures r.Some? ==> r.value == |old(working).knowledge.documents|
      ensures r.Some? ==> working == old(working).(knowledge := old(working).knowledge.(
                            documents := old(working).knowledge.documents + [row]))
      ensures r.None? ==> working == old(working)
    {
      var ok := Call();
      if !ok || !K.DocumentAdmissible(working.knowledge, row) { return None; }
      r := Some(|working.knowledge.documents|);
      working := working.(knowledge := working.knowledge.(documents := working.knowledge.documents + [row]));
    }

    /** Records the job in the session; it reaches the database with the next call. */
    method AddJob(row: K.Job)
      modifies `working
      ensures working == old(working).(knowledge := old(working).knowledge.(
                jobs := old(working).knowledge.jobs + [row]))
    {
      working := working.(knowledge := working.knowledge.(jobs := working.knowledge.jobs + [row]));
    }

    method AddVersion(row: K.Version) returns (r: Option<nat>)
      modifies `clock, `working
      ensures clock == old(clock) + 1
      ensures r.Some? <==> !faults(old(clock)) && |row.hash| == K.HASH_LENGTH
                           && K.VersionAdmissible(old(working).knowledge, row)
      ensures r.Some? ==> r.value == |old(working).knowledge.versions|
      ensures r.Some? ==> working == old(working).(knowledge := old(working).knowledge.(
                            versions := old(working).knowledge.versions + [row]))
      ensures r.None? ==> working == old(working)
    {
      var ok := Call();
      if !ok || |row.hash| != K.HASH_LENGTH || !K.VersionAdmissible(working.knowledge, row) { return None; }
      r := Some(|working.knowledge.versions|);
      working := working.(knowledge := working.knowledge.(versions := working.knowledge.versions + [row]));
    }

    method AddCitation(row: K.Citation) returns (ok: bool)
      modifies `clock, `working
      ensures clock == old(clock) + 1 && ok == !faults(old(clock))
      ensures working == if ok then old(working).(knowledge := old(working).knowledge.(
                           citations := old(working).knowledge.citations + [row])) else old(working)
    {
      ok := Call();
      if ok {
        working := working.(knowledge := working.knowledge.(citations := working.knowledge.citations + [row]));
      }
    }
  }

  // ---- ingestion of one record

  class IngestionService {
    const db: Session

    constructor (db: Session)
      ensures this.db == db
    {
      this.db := db;
    }

    method FindOrAddSource(r: K.Record, org: Id) returns (source: Option<nat>)
      modifies db`working, db`clock
      ensures old(db.clock) <= db.clock
      ensures source.Some? <==> Calm(db.faults, old(db.clock), db.clock)
                                && K.WithSource(old(db.working).knowledge, org, r).Ok?
      ensures source.Some? ==>
                var (k, i) := K.WithSource(old(db.working).knowledge, org, r).value;
                db.working == old(db.working).(knowledge := k) && source.value == i
    {
      var ok := db.Call();
      if !ok { assert db.faults(old(db.clock)); return None; }
      source := K.FindSource(db.working.knowledge, org, r.sourceType, r.connector);
      if source.None? {
        source := db.AddSource(K.Source(org, r.sourceType, K.SourceName(r.connector), r.connector));
      }
    }

    method FindOrAddDocument(r: K.Record, org: Id, source: nat) returns (document: Option<nat>, isNew: bool)
      modifies db`working, db`clock
      ensures old(db.clock) <= db.clock
      ensures document.Some? <==> Calm(db.faults, old(db.clock), db.clock)
                                  && K.WithDocument(old(db.working).knowledge, org, source, r).Ok?
      ensures document.Some? ==>
                var (k, i, created) := K.WithDocument(old(db.working).knowledge, org, source, r).value;
                db.working == old(db.working).(knowledge := k) && document.value == i && isNew == created
    {
      isNew := false;
      var ok := db.Call();
      if !ok { assert db.faults(old(db.clock)); return None, false; }
      document := K.FindDocument(db.working.knowledge, org, source, r.externalId);
      isNew := document.None?;
      if isNew {
        document := db.AddDocument(K.Document(org, source, r.externalId, r.details));
      }
    }

    method AddNextVersion(r: K.Record, org: Id, source: nat, document: nat) returns (ok: bool)
      modifies db`working, db`clock
      ensures old(db.clock) <= db.clock
      ensures ok <==> Calm(db.faults, old(db.clock), db.clock)
                      && K.WithVersion(old(db.working).knowledge, org, source, document, r).Ok?
      ensures ok ==> db.working == old(db.working).(
                       knowledge := K.WithVersion(old(db.working).knowledge, org, source, document, r).value)
    {
      db.AddJob(K.Job(org, source, document, K.SucceededJob, r.hash));
      ok := db.Call();
      if !ok { assert db.faults(old(db.clock)); return; }
      var maximum := K.MaxVersion(db.working.knowledge.versions, org, document);
      var version := db.AddVersion(K.Version(org, document, maximum + 1, r.hash, r.details));
      if version.None? { return false; }
      ok := db.AddCitation(K.Citation(org, source, document, version.value, maximum + 1, r.hash, r.details));
      if !ok { assert db.faults(db.clock - 1); }
    }

    /** Returns nothing when a call failed or a constraint was violated; the working
        tables are then whatever the completed steps made of them. */
    method Ingest(r: K.Record, org: Id) returns (status: Option<K.Status>)
      modifies db`working, db`clock
      ensures old(db.clock) <= db.clock
      ensures status.Some? <==> Calm(db.faults, old(db.clock), db.clock)
                                && K.Ingested(old(db.working).knowledge, org, r).Ok?
      ensures status.Some? ==>
                var (k, s) := K.Ingested(old(db.working).knowledge, org, r).value;
                db.working == old(db.working).(knowledge := k) && status.value == s
    {
      hide K.WithSource, K.WithDocument, K.WithVersion, K.HasHash;
      var source := FindOrAddSource(r, org);
      if source.None? { return None; }
      label sourced:
      var document, isNew := FindOrAddDocument(r, org, source.value);
      if document.None? { return None; }
      label documented:
      var ok := db.Call();
      if !ok { assert db.faults(old@documented(db.clock)); return None; }
      if K.HasHash(db.working.knowledge, org, document.value, r.hash) {
        db.AddJob(K.Job(org, source.value, document.value, K.DuplicateJob, r.hash));
        ok := db.Call();
        if !ok { assert db.faults(db.clock - 1); return None; }
        return Some(K.Duplicate);
      }
      ok := AddNextVersion(r, org, source.value, document.value);
      if !ok { return None; }
      return Some(if isNew then K.Created else K.Updated);
    }
  }

  // ---- the run

  function Tally(processed: nat, created: nat, skipped: nat, pages: nat): map<S.Counter, int> {
    S.ZERO[S.Processed := processed][S.Created := created][S.Skipped := skipped][S.Pages := pages]
  }

  lemma TallyStarts()
    ensures Tally(0, 0, 0, 0) == S.ZERO
  {
  }

  predicate HasTally(counters: map<S.Counter, int>) {
    S.Processed in counters && S.Created in counters && S.Skipped in counters && S.Pages in counters
  }

  /** One record counted, either as skipped or as created. */
  function Counted(counters: map<S.Counter, int>, duplicate: bool): map<S.Counter, int>
    requires HasTally(counters)
  {
    var more := counters[S.Processed := counters[S.Processed] + 1];
    if duplicate then more[S.Skipped := more[S.Skipped] + 1] else more[S.Created := more[S.Created] + 1]
  }

  lemma TallyCounts(processed: nat, created: nat, skipped: nat, duplicate: bool)
    ensures HasTally(Tally(processed, created, skipped, 0))
    ensures Counted(Tally(processed, created, skipped, 0), duplicate)
         == Tally(processed + 1, created + (if duplicate then 0 else 1), skipped + (if duplicate then 1 else 0), 0)
  {
  }

  lemma TallyTurnsPage(processed: nat, created: nat, skipped: nat)
    ensures var before, after := Tally(processed, created, skipped, 0), Tally(processed, created, skipped, 1);
            && S.Pages in before && before[S.Pages] == 0 && before[S.Pages := 1] == after
            && S.Pages in after && after[S.Pages] == 1 && S.Processed in after && after[S.Processed] == processed
  {
  }

  /** A world whose state row `key` carries these counters. */
  function WithCounters(w: World, key: S.Key, counters: map<S.Counter, int>): World
    requires key in w.states
  {
    w.(states := w.states[key := w.states[key].(counters := counters)])
  }

  class SyncIngestionService {
    const db: Session
    const ingestion: IngestionService

    constructor (db: Session)
      ensures this.db == db && ingestion.db == db
    {
      this.db := db;
      ingestion := new IngestionService(db);
    }

    /** Adds one to a counter of the state row. */
    method Count(key: S.Key, counter: S.Counter)
      requires key in db.working.states && counter in db.working.states[key].counters
      modifies db`working
      ensures var counters := old(db.working).states[key].counters;
              db.working == WithCounters(old(db.working), key, counters[counter := counters[counter] + 1])
    {
      var state := db.working.states[key];
      state := state.(counters := state.counters[counter := state.counters[counter] + 1]);
      db.working := db.working.(states := db.working.states[key := state]);
    }

    method RecordAudit(q: Request, key: S.Key, succeeded: bool, code: Option<string>) returns (ok: bool)
      requires key in db.working.states && S.Pages in db.working.states[key].counters
      requires S.Processed in db.working.states[key].counters
      requires db.working.states[key].counters[S.Pages] >= 0 && db.working.states[key].counters[S.Processed] >= 0
      modifies db`working, db`clock
      ensures db.clock == old(db.clock) + 1 && ok == !db.faults(old(db.clock))
      ensures ok ==> db.working == old(db.working).(audits := old(db.working).audits +
                [Audit(key.org, key.configuration, key.syncKey, q.context.correlation,
                       old(db.working).states[key].counters[S.Pages],
                       old(db.working).states[key].counters[S.Processed], succeeded, code)])
    {
      ok := db.Call();
      if ok {
        var counters := db.working.states[key].counters;
        db.working := db.working.(audits := db.working.audits +
          [Audit(key.org, key.configuration, key.syncKey, q.context.correlation,
                 counters[S.Pages], counters[S.Processed], succeeded, code)]);
      }
    }

    /** Loads the configuration, starts the state row and commits it. */
    method Begin(q: Request, now: int) returns (key: Option<S.Key>)
      requires db.working == db.committed
      modifies db`working, db`committed, db`clock
      ensures old(db.clock) <= db.clock
      ensures key.Some? <==> Startable(old(db.committed), q) && Calm(db.faults, old(db.clock), db.clock)
      ensures key.Some? ==> key.value == KeyOf(old(db.committed), q) && db.working == db.committed
      ensures db.committed == if key.None? then old(db.committed)
                              else old(db.committed).(states := old(db.committed).states[key.value :=
                                     S.Started(Previous(old(db.committed), q), q.context.correlation, now)])
    {
      var ok := db.Call();
      if !ok { assert db.faults(old(db.clock)); return None; }
      var name := (q.context.org, q.connector);
      if name !in db.working.configurations { return None; }
      var configuration := db.working.configurations[name];
      if !configuration.enabled || !configuration.syncEnabled { return None; }
      var k := S.Key(q.context.org, configuration.id, q.syncKey);
      ok := db.Call();
      if !ok { assert db.faults(old(db.clock) + 1); return None; }
      var state := if k in db.working.states then db.working.states[k] else S.FRESH;
      if state.status == S.Running { return None; }
      db.working := db.working.(states := db.working.states[k := S.Started(state, q.context.correlation, now)]);
      ok := db.Call();
      if !ok { assert db.faults(old(db.clock) + 2); return None; }
      ok := db.Commit();
      if !ok { assert db.faults(old(db.clock) + 3); return None; }
      return Some(k);
    }

    /** One turn of the record loop. */
    method IngestPayload(payload: Payload, org: Id, key: S.Key) returns (status: Option<K.Status>)
      requires ingestion.db == db
      requires key in db.working.states && HasTally(db.working.states[key].counters)
      modifies db`working, db`clock
      ensures old(db.clock) <= db.clock
      ensures status.Some? <==> payload.Some? && Calm(db.faults, old(db.clock), db.clock)
                                && K.Ingested(old(db.working).knowledge, org, payload.value).Ok?
      ensures status.Some? ==>
                var (k, s) := K.Ingested(old(db.working).knowledge, org, payload.value).value;
                && status.value == s
                && db.working == WithCounters(old(db.working), key,
                     Counted(old(db.working).states[key].counters, s.Duplicate?)).(knowledge := k)
    {
      hide K.Ingested;
      if payload.None? { return None; }
      status := ingestion.Ingest(payload.value, org);
      if status.None? { return None; }
      Count(key, S.Processed);
      if status.value.Duplicate? {
        Count(key, S.Skipped);
      } else {
        Count(key, S.Created);
      }
    }

    /** The record loop. It stops at the first failure. */
    method IngestRecords(q: Request, key: S.Key) returns (ok: bool)
      requires ingestion.db == db
      requires key in db.working.states && db.working.states[key].counters == Tally(0, 0, 0, 0)
      modifies db`working, db`clock
      ensures old(db.clock) <= db.clock
      ensures ok <==> Calm(db.faults, old(db.clock), db.clock)
                      && Absorb(old(db.working).knowledge, q.context.org, q.payloads).Ok?
      ensures ok ==>
                var (k, created) := Absorb(old(db.working).knowledge, q.context.org, q.payloads).value;
                && created <= |q.payloads|
                && db.working == WithCounters(old(db.working), key,
                     Tally(|q.payloads|, created, |q.payloads| - created, 0)).(knowledge := k)
    {
      hide K.Ingested, Tally, Counted;
      TallyCounts(0, 0, 0, true);
      ghost var start := db.working;
      var org := q.context.org;
      ghost var created, skipped := 0, 0;
      assert q.payloads[0..] == q.payloads;
      for i := 0 to |q.payloads|
        invariant old(db.clock) <= db.clock && Calm(db.faults, old(db.clock), db.clock)
        invariant created + skipped == i
        invariant db.working == WithCounters(start, key, Tally(i, created, skipped, 0)).(knowledge := db.working.knowledge)
        invariant Absorb(start.knowledge, org, q.payloads)
               == Plus(Absorb(db.working.knowledge, org, q.payloads[i..]), created)
      {
        ghost var rest := q.payloads[i..];
        assert rest[0] == q.payloads[i] && rest[1..] == q.payloads[i + 1..];
        label turn:
        TallyCounts(i, created, skipped, true);
        TallyCounts(i, created, skipped, false);
        var status := IngestPayload(q.payloads[i], org, key);
        if status.None? { return false; }
        if status.value.Duplicate? {
          skipped := skipped + 1;
        } else {
          created := created + 1;
        }
      }
      assert q.payloads[|q.payloads|..] == [];
      return true;
    }

    /** The body of the try block, up to the commit. */
    method Attempt(q: Request, key: S.Key, now: int) returns (ok: bool)
      requires ingestion.db == db
      requires key in db.working.states && db.working.states[key].counters == Tally(0, 0, 0, 0)
      requires db.working.states[key].status == S.Running
      modifies db`working, db`committed, db`clock
      ensures old(db.clock) <= db.clock
      ensures ok <==> Calm(db.faults, old(db.clock), db.clock)
                      && Ingestible(old(db.working).knowledge, q.context.org, q.payloads)
      ensures !ok ==> db.committed == old(db.committed)
      ensures ok ==>
                var (k, created) := K.IngestedAll(old(db.working).knowledge, q.context.org, Records(q.payloads)).value;
                && created <= |q.payloads|
                && db.committed == old(db.working).(
                     knowledge := k,
                     states := old(db.working).states[key := S.Completed(
                       old(db.working).states[key].(counters := Tally(|q.payloads|, created, |q.payloads| - created, 1)),
                       q.finalCursor, false, now)],
                     audits := old(db.working).audits + [Audit(key.org, key.configuration, key.syncKey,
                                 q.context.correlation, 1, |q.payloads|, true, None)])
    {
      hide K.Ingested, K.IngestedAll, Tally, Absorb;
      AbsorbIsIngestedAll(db.working.knowledge, q.context.org, q.payloads);
      ok := IngestRecords(q, key);
      if !ok { return; }
      ghost var created := K.IngestedAll(old(db.working).knowledge, q.context.org, Records(q.payloads)).value.1;
      TallyTurnsPage(|q.payloads|, created, |q.payloads| - created);
      Count(key, S.Pages);
      var state := S.Completed(db.working.states[key], q.finalCursor, false, now);
      db.working := db.working.(states := db.working.states[key := state]);
      ok := db.Call();
      if !ok { assert db.faults(db.clock - 1); return; }
      ok := RecordAudit(q, key, true, None);
      if !ok { assert db.faults(db.clock - 1); return; }
      ok := db.Commit();
      if !ok { assert db.faults(db.clock - 1); }
    }

    /** The exception handler: discard the work, fail the state row, commit that. */
    method Recover(q: Request, key: S.Key, now: int) returns (ok: bool)
      requires key in db.committed.states && db.committed.states[key].counters == S.ZERO
      modifies db`working, db`committed, db`clock
      ensures old(db.clock) <= db.clock
      ensures db.committed == if !ok then old(db.committed) else old(db.committed).(
                states := old(db.committed).states[key :=
                  S.FailedWith(old(db.committed).states[key], FAILURE_CODE, FAILURE_SUMMARY, now)],
                audits := old(db.committed).audits + [Audit(key.org, key.configuration, key.syncKey,
                            q.context.correlation, 0, 0, false, Some(FAILURE_CODE))])
    {
      TallyStarts();
      ok := db.Rollback();
      if !ok { return; }
      ok := db.Call();
      if !ok { return; }
      var state := db.working.states[key];
      db.working := db.working.(states := db.working.states[key :=
        S.FailedWith(state, FAILURE_CODE, FAILURE_SUMMARY, now)]);
      ok := db.Call();
      if !ok { return; }
      ok := RecordAudit(q, key, false, Some(FAILURE_CODE));
      if !ok { return; }
      ok := db.Commit();
    }

    /** A whole run. It succeeds exactly when it can start, the records go in and no
        database call fails; every other outcome leaves the knowledge tables alone. */
    method Run(q: Request, startedAt: int, finishedAt: int) returns (o: Outcome)
      requires ingestion.db == db && db.working == db.committed
      modifies db`working, db`committed, db`clock
      ensures Explained(old(db.committed), db.committed, q, o)
      ensures o == Succeeded <==>
              && Startable(old(db.committed), q)
              && Ingestible(old(db.committed).knowledge, q.context.org, q.payloads)
              && Calm(db.faults, old(db.clock), db.clock)
    {
      hide K.Ingested, K.IngestedAll;
      var key := Begin(q, startedAt);
      if key.None? { return Refused; }
      TallyStarts();
      var ok := Attempt(q, key.value, finishedAt);
      if ok { return Succeeded; }
      ok := Recover(q, key.value, finishedAt);
      return if ok then FailureRecorded else FailureUnrecorded;
    }
  }
}
