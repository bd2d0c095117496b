/** Migration 0025: refuse to start unless every logical result has one exact execution
    request, then copy that request's classification into a new column and into the
    result payload, verify, and replace the schema's constraints. */
module Backfill {
  import opened Common

  // ---- tables

  /** `Other` is any JSON value that is not a string, with its text form. */
  datatype Json = Text(text: string) | Other(text: string)

  datatype Payload = Object(fields: map<string, Json>) | NotObject

  /** A row of `runtime_record_revisions`, keyed by its write receipt. */
  datatype Request = Request(
    recordType: string, tenant: Id, org: Id, classification: string, recordId: Id, revision: int)

  datatype Identity = Identity(
    tenant: Id, org: Id, classification: string, request: Id, attempt: Id, lineage: Id)

  datatype Key = Key(result: Id, revision: int)

  /** `requestClassification` is the column this migration adds. */
  datatype Revision = Revision(
    identity: Identity, expectedRevision: int, requestType: string,
    payload: Payload, requestClassification: Option<string>)

  datatype Database = Database(
    identities: map<Id, Identity>,
    revisions: map<Key, Revision>,
    requests: map<Id, Request>)

  const EXECUTION_REQUEST := "execution_request"
  const COLUMN := "execution_request_classification"

  /** `CASE ... ELSE NULL END`: an unknown classification has no rank. */
  function ClassRank(c: string): Option<nat> {
    if c == "public" then Some(0)
    else if c == "internal" then Some(1)
    else if c == "confidential" then Some(2)
    else if c == "restricted" then Some(3)
    else None
  }

  predicate KnownClass(c: string) {
    ClassRank(c).Some?
  }

  /** `(rank a) < (rank b)` in three-valued logic: true only when both are known. */
  predicate DefinitelyLower(a: string, b: string) {
    ClassRank(a).Some? && ClassRank(b).Some? && ClassRank(a).value < ClassRank(b).value
  }

  // ---- the older constraints

  /** The columns that a revision and its request share. */
  predicate SameRequest(v: Revision, q: Request) {
    && q.tenant == v.identity.tenant && q.org == v.identity.org
    && q.recordId == v.identity.request && q.revision == v.expectedRevision
  }

  predicate Joins(v: Revision, q: Request) {
    q.recordType == v.requestType && SameRequest(v, q)
  }

  ghost predicate TypesChecked(db: Database) {
    forall k | k in db.revisions :: db.revisions[k].requestType == EXECUTION_REQUEST
  }

  ghost predicate OlderConstraints(db: Database) {
    && TypesChecked(db)
    && (forall i | i in db.identities :: KnownClass(db.identities[i].classification))
    && (forall k | k in db.revisions ::
          k.result in db.identities && db.identities[k.result] == db.revisions[k].identity)
    && (forall k | k in db.revisions ::
          exists r | r in db.requests :: Joins(db.revisions[k], db.requests[r])
                && db.requests[r].classification == db.revisions[k].identity.classification)
    && (forall r, s | r in db.requests && s in db.requests && r != s :: !SameScope(db.requests[r], db.requests[s]))
  }

  predicate SameScope(a: Request, b: Request) {
    a.(classification := b.classification) == b
  }

  predicate SameAttempt(a: Identity, b: Identity) {
    a.tenant == b.tenant && a.org == b.org && a.request == b.request && a.attempt == b.attempt
  }

  // ---- preflight, query by query

  function ExactRequests(db: Database, v: Revision): set<Id> {
    set r | r in db.requests && db.requests[r].recordType == EXECUTION_REQUEST && SameRequest(v, db.requests[r])
  }

  predicate MissingOrAmbiguous(db: Database) {
    exists k | k in db.revisions :: |ExactRequests(db, db.revisions[k])| != 1
  }

  predicate InvalidClass(db: Database) {
    exists k, r | k in db.revisions && r in db.requests ::
      Joins(db.revisions[k], db.requests[r]) && !KnownClass(db.requests[r].classification)
  }

  /** `HAVING count(DISTINCT request.classification) <> 1` over the joined groups. */
  predicate Disagreeing(db: Database) {
    exists k, l, r, s | k in db.revisions && l in db.revisions && r in db.requests && s in db.requests ::
      && k.result == l.result
      && Joins(db.revisions[k], db.requests[r]) && Joins(db.revisions[l], db.requests[s])
      && db.requests[r].classification != db.requests[s].classification
  }

  predicate Lowered(db: Database) {
    exists k, r | k in db.revisions && r in db.requests ::
      Joins(db.revisions[k], db.requests[r])
      && DefinitelyLower(db.revisions[k].identity.classification, db.requests[r].classification)
  }

  predicate DuplicateAttempt(db: Database) {
    exists i, j | i in db.identities && j in db.identities ::
      i != j && SameAttempt(db.identities[i], db.identities[j])
  }

  predicate BadPayload(db: Database) {
    exists k | k in db.revisions :: db.revisions[k].payload.NotObject?
  }

  predicate KeyPresent(db: Database) {
    exists k | k in db.revisions ::
      db.revisions[k].payload.Object? && COLUMN in db.revisions[k].payload.fields
  }

  datatype Error =
    | RequestMissingOrAmbiguous | RequestClassInvalid | RevisionsDisagree | ClassLowered
    | AttemptDuplicated | PayloadNotObject | PayloadHasKey
    | VerificationFailed | ConstraintViolated

  function Preflight(db: Database): Outcome<Error> {
    if MissingOrAmbiguous(db) then Fail(RequestMissingOrAmbiguous)
    else if InvalidClass(db) then Fail(RequestClassInvalid)
    else if Disagreeing(db) then Fail(RevisionsDisagree)
    else if Lowered(db) then Fail(ClassLowered)
    else if DuplicateAttempt(db) then Fail(AttemptDuplicated)
    else if BadPayload(db) then Fail(PayloadNotObject)
    else if KeyPresent(db) then Fail(PayloadHasKey)
    else Pass
  }

  // ---- preflight on the columns

  const CLASSES := ["public", "internal", "confidential", "restricted"]

  /** The first class stands before the second in the order of classes. */
  predicate Below(a: string, b: string) {
    exists i, j | 0 <= i < j < |CLASSES| :: CLASSES[i] == a && CLASSES[j] == b
  }

  /** The request a logical result was made for. */
  predicate Requested(v: Revision, q: Request) {
    && q.recordType == "execution_request" && q.tenant == v.identity.tenant && q.org == v.identity.org
    && q.recordId == v.identity.request && q.revision == v.expectedRevision
  }

  predicate OneRequest(db: Database, v: Revision) {
    exists r | r in db.requests ::
      Requested(v, db.requests[r]) && forall s | s in db.requests && s != r :: !Requested(v, db.requests[s])
  }

  lemma ClassesAre(a: string, b: string)
    ensures KnownClass(a) <==> a in CLASSES
    ensures DefinitelyLower(a, b) <==> Below(a, b)
  {
    assert CLASSES[0] == "public" && CLASSES[1] == "internal" && CLASSES[2] == "confidential" && CLASSES[3] == "restricted";
  }

  lemma JoinsAre(db: Database, v: Revision)
    requires v.requestType == EXECUTION_REQUEST
    ensures forall q :: Joins(v, q) <==> Requested(v, q)
    ensures |ExactRequests(db, v)| == 1 <==> OneRequest(db, v)
  {
    var s := ExactRequests(db, v);
    assert forall r :: r in s <==> r in db.requests && Requested(v, db.requests[r]);
    hide ExactRequests, Requested;
    if |s| == 1 {
      var r := Only(s);
      assert r in s && forall x | x in s :: x == r;
    }
    if r :| r in db.requests && Requested(v, db.requests[r])
            && forall x | x in db.requests && x != r :: !Requested(v, db.requests[x]) {
      assert s == {r};
    }
  }

  predicate AllRequestedOnce(db: Database) {
    forall k | k in db.revisions :: OneRequest(db, db.revisions[k])
  }

  predicate ClassesKnown(db: Database) {
    forall k, r | k in db.revisions && r in db.requests && Requested(db.revisions[k], db.requests[r]) ::
      db.requests[r].classification in CLASSES
  }

  /** The classes of all requests one result was ever made for agree. */
  predicate ClassesAgree(db: Database) {
    forall k, l, r, s |
      k in db.revisions && l in db.revisions && r in db.requests && s in db.requests && k.result == l.result ::
      Requested(db.revisions[k], db.requests[r]) && Requested(db.revisions[l], db.requests[s]) ==>
        db.requests[r].classification == db.requests[s].classification
  }

  predicate NoneLowered(db: Database) {
    forall k, r | k in db.revisions && r in db.requests && Requested(db.revisions[k], db.requests[r]) ::
      !Below(db.revisions[k].identity.classification, db.requests[r].classification)
  }

  predicate AttemptsDiffer(db: Database) {
    forall i, j | i in db.identities && j in db.identities && i != j ::
      var a, b := db.identities[i], db.identities[j];
      !(a.tenant == b.tenant && a.org == b.org && a.request == b.request && a.attempt == b.attempt)
  }

  predicate PayloadsAreObjects(db: Database) {
    forall k | k in db.revisions :: db.revisions[k].payload.Object?
  }

  predicate KeyIsNew(db: Database) {
    forall k | k in db.revisions && db.revisions[k].payload.Object? ::
      "execution_request_classification" !in db.revisions[k].payload.fields
  }

  /** In a checked table joining is being requested. */
  lemma JoinedIsRequested(db: Database, k: Key, q: Request)
    requires TypesChecked(db) && k in db.revisions
    ensures Joins(db.revisions[k], q) <==> Requested(db.revisions[k], q)
  {
  }

  lemma MissingIff(db: Database)
    requires TypesChecked(db)
    ensures MissingOrAmbiguous(db) <==> !AllRequestedOnce(db)
  {
    forall k | k in db.revisions ensures |ExactRequests(db, db.revisions[k])| == 1 <==> OneRequest(db, db.revisions[k]) {
      JoinsAre(db, db.revisions[k]);
    }
    hide ExactRequests, OneRequest, TypesChecked;
  }

  lemma ClassQueriesAre(db: Database)
    requires TypesChecked(db)
    ensures InvalidClass(db) <==> !ClassesKnown(db)
    ensures Lowered(db) <==> !NoneLowered(db)
  {
    forall k, r | k in db.revisions && r in db.requests
      ensures Joins(db.revisions[k], db.requests[r]) <==> Requested(db.revisions[k], db.requests[r])
      ensures KnownClass(db.requests[r].classification) <==> db.requests[r].classification in CLASSES
      ensures DefinitelyLower(db.revisions[k].identity.classification, db.requests[r].classification)
              <==> Below(db.revisions[k].identity.classification, db.requests[r].classification)
    {
      JoinedIsRequested(db, k, db.requests[r]);
      ClassesAre(db.revisions[k].identity.classification, db.requests[r].classification);
      ClassesAre(db.requests[r].classification, "");
    }
    hide Joins, Requested, KnownClass, DefinitelyLower, Below, CLASSES, TypesChecked;
  }

  lemma DisagreeingIff(db: Database)
    requires TypesChecked(db)
    ensures Disagreeing(db) <==> !ClassesAgree(db)
  {
    forall k, r | k in db.revisions && r in db.requests
      ensures Joins(db.revisions[k], db.requests[r]) <==> Requested(db.revisions[k], db.requests[r])
    {
      JoinedIsRequested(db, k, db.requests[r]);
    }
    hide Joins, Requested, TypesChecked;
  }

  lemma RowQueriesAre(db: Database)
    ensures DuplicateAttempt(db) <==> !AttemptsDiffer(db)
    ensures BadPayload(db) <==> !PayloadsAreObjects(db)
    ensures KeyPresent(db) <==> !KeyIsNew(db)
  {
  }

  /** Everything preflight asks, in its order, on the columns themselves. */
  lemma PreflightIsExact(db: Database)
    requires TypesChecked(db)
    ensures Preflight(db) ==
            Outcome<Error>.Pass
            .Check(AllRequestedOnce(db), RequestMissingOrAmbiguous)
            .Check(ClassesKnown(db), RequestClassInvalid)
            .Check(ClassesAgree(db), RevisionsDisagree)
            .Check(NoneLowered(db), ClassLowered)
            .Check(AttemptsDiffer(db), AttemptDuplicated)
            .Check(PayloadsAreObjects(db), PayloadNotObject)
            .Check(KeyIsNew(db), PayloadHasKey)
  {
    hide MissingOrAmbiguous, InvalidClass, Disagreeing, Lowered, DuplicateAttempt, BadPayload, KeyPresent, TypesChecked;
    hide AllRequestedOnce, ClassesKnown, ClassesAgree, NoneLowered, AttemptsDiffer, PayloadsAreObjects, KeyIsNew;
    MissingIff(db);
    ClassQueriesAre(db);
    DisagreeingIff(db);
    RowQueriesAre(db);
  }

  lemma OneJoin(db: Database, k: Key, r: Id)
    requires OlderConstraints(db) && k in db.revisions
    requires r in db.requests && Joins(db.revisions[k], db.requests[r])
    ensures ExactRequests(db, db.revisions[k]) == {r}
    ensures db.requests[r].classification == db.revisions[k].identity.classification
  {
    forall s | s in ExactRequests(db, db.revisions[k]) ensures s == r {
      var a, b := db.requests[r], db.requests[s];
      assert a.(classification := b.classification) == b;
    }
    var t :| t in db.requests && Joins(db.revisions[k], db.requests[t])
             && db.requests[t].classification == db.revisions[k].identity.classification;
    assert t in ExactRequests(db, db.revisions[k]);
  }

  lemma OlderIsUnambiguous(db: Database)
    requires OlderConstraints(db)
    ensures !MissingOrAmbiguous(db)
  {
    forall k | k in db.revisions ensures |ExactRequests(db, db.revisions[k])| == 1 {
      var r :| r in db.requests && Joins(db.revisions[k], db.requests[r]);
      OneJoin(db, k, r);
    }
  }

  lemma OlderJoinsAgree(db: Database)
    requires OlderConstraints(db)
    ensures !InvalidClass(db) && !Disagreeing(db) && !Lowered(db)
  {
    forall k, r | k in db.revisions && r in db.requests && Joins(db.revisions[k], db.requests[r])
      ensures db.requests[r].classification == db.identities[k.result].classification
      ensures db.revisions[k].identity == db.identities[k.result]
      ensures KnownClass(db.requests[r].classification)
    {
      OneJoin(db, k, r);
    }
    hide KnownClass, OlderConstraints, Joins;
  }

  /** On a database that satisfies the older constraints, preflight can fail only on a
      duplicate request and attempt, a payload that is no object, or a key already there. */
  lemma PreflightFailsOnlyOnNewDemands(db: Database)
    requires OlderConstraints(db)
    ensures Preflight(db).Pass? <==> !DuplicateAttempt(db) && !BadPayload(db) && !KeyPresent(db)
    ensures Preflight(db).Fail? ==> Preflight(db).error in {AttemptDuplicated, PayloadNotObject, PayloadHasKey}
  {
    OlderIsUnambiguous(db);
    OlderJoinsAgree(db);
    hide MissingOrAmbiguous, InvalidClass, Disagreeing, Lowered, DuplicateAttempt, BadPayload, KeyPresent, OlderConstraints;
  }

  // ---- the update

  ghost function Only(s: set<Id>): (r: Id)
    requires |s| == 1
    ensures s == {r}
  {
    assert (forall r: Id :: r !in s) ==> s == {};
    var r :| r in s;
    assert |s - {r}| == 0;
    r
  }

  /** The one request a revision joins, once preflight has passed. */
  ghost function TheRequest(db: Database, v: Revision): Request
    requires |ExactRequests(db, v)| == 1
  {
    assert Only(ExactRequests(db, v)) in ExactRequests(db, v);
    db.requests[Only(ExactRequests(db, v))]
  }

  lemma TheRequestJoins(db: Database, v: Revision, r: Id)
    requires |ExactRequests(db, v)| == 1 && v.requestType == EXECUTION_REQUEST
    requires r in db.requests && Joins(v, db.requests[r])
    ensures db.requests[r] == TheRequest(db, v)
  {
    assert r in ExactRequests(db, v);
  }

  function WithClass(v: Revision, classification: string): Revision {
    v.(
      requestClassification := Some(classification),
      payload := if v.payload.Object? then Object(v.payload.fields[COLUMN := Text(classification)]) else v.payload)
  }

  /** `UPDATE ... FROM`: every row that joins a request takes that request's class. */
  ghost predicate Updated(db: Database, db': Database) {
    && db'.identities == db.identities && db'.requests == db.requests
    && db'.revisions.Keys == db.revisions.Keys
    && forall k | k in db.revisions ::
         if exists r | r in db.requests :: Joins(db.revisions[k], db.requests[r])
         then exists r | r in db.requests :: Joins(db.revisions[k], db.requests[r])
                && db'.revisions[k] == WithClass(db.revisions[k], db.requests[r].classification)
         else db'.revisions[k] == db.revisions[k]
  }

  predicate VerificationFinds(db: Database) {
    exists k, r | k in db.revisions && r in db.requests ::
      Joins(db.revisions[k], db.requests[r])
      && var v, c := db.revisions[k], db.requests[r].classification;
      || v.requestClassification.None?
      || v.requestClassification.value != c
      || (v.payload.Object? && COLUMN in v.payload.fields && v.payload.fields[COLUMN].text != c)
  }

  // ---- the new constraints

  predicate NotNull(db: Database) {
    forall k | k in db.revisions :: db.revisions[k].requestClassification.Some?
  }

  predicate RequestReferenced(db: Database) {
    forall k | k in db.revisions ::
      db.revisions[k].requestClassification.Some? ==>
        exists r | r in db.requests ::
          Joins(db.revisions[k], db.requests[r])
          && db.requests[r].classification == db.revisions[k].requestClassification.value
  }

  predicate AttemptUnique(db: Database) {
    !DuplicateAttempt(db)
  }

  /** A check constraint holds unless it is definitely false. */
  predicate ClassChecked(db: Database) {
    forall k | k in db.revisions ::
      db.revisions[k].requestClassification.Some? ==> KnownClass(db.revisions[k].requestClassification.value)
  }

  predicate NotLoweredChecked(db: Database) {
    forall k | k in db.revisions ::
      db.revisions[k].requestClassification.Some? ==>
        !DefinitelyLower(db.revisions[k].identity.classification, db.revisions[k].requestClassification.value)
  }

  ghost predicate NewConstraints(db: Database) {
    NotNull(db) && RequestReferenced(db) && AttemptUnique(db) && ClassChecked(db) && NotLoweredChecked(db)
  }

  /** The new constraints, row by row: a known class that is not below the row's own, and a
      request of that very class; and no attempt is stored twice. */
  lemma NewConstraintsAre(db: Database)
    requires TypesChecked(db)
    ensures NewConstraints(db) <==>
            && AttemptsDiffer(db)
            && forall k | k in db.revisions ::
                 var v := db.revisions[k];
                 && v.requestClassification.Some? && v.requestClassification.value in CLASSES
                 && !Below(v.identity.classification, v.requestClassification.value)
                 && exists r | r in db.requests ::
                      Requested(v, db.requests[r]) && db.requests[r].classification == v.requestClassification.value
  {
    RowQueriesAre(db);
    forall k, r | k in db.revisions && r in db.requests
      ensures Joins(db.revisions[k], db.requests[r]) <==> Requested(db.revisions[k], db.requests[r])
    {
      JoinedIsRequested(db, k, db.requests[r]);
    }
    forall a, b
      ensures KnownClass(a) <==> a in CLASSES
      ensures DefinitelyLower(a, b) <==> Below(a, b)
    {
      ClassesAre(a, b);
    }
    hide Joins, Requested, KnownClass, DefinitelyLower, Below, CLASSES, TypesChecked, AttemptsDiffer, DuplicateAttempt;
  }

  lemma PreflightRow(db: Database, k: Key)
    requires TypesChecked(db) && Preflight(db).Pass? && k in db.revisions
    ensures |ExactRequests(db, db.revisions[k])| == 1
    ensures var q := TheRequest(db, db.revisions[k]);
            && Joins(db.revisions[k], q) && KnownClass(q.classification)
            && !DefinitelyLower(db.revisions[k].identity.classification, q.classification)
            && exists r | r in db.requests :: db.requests[r] == q
    ensures db.revisions[k].payload.Object? && COLUMN !in db.revisions[k].payload.fields
  {
    hide KnownClass, DefinitelyLower, Disagreeing, DuplicateAttempt;
    assert !MissingOrAmbiguous(db) && !InvalidClass(db) && !Lowered(db) && !BadPayload(db) && !KeyPresent(db);
    hide Preflight;
    assert |ExactRequests(db, db.revisions[k])| == 1;
    var r := Only(ExactRequests(db, db.revisions[k]));
    assert r in ExactRequests(db, db.revisions[k]);
    assert Joins(db.revisions[k], db.requests[r]);
  }

  lemma UpdatedRow(db: Database, db': Database, k: Key)
    requires TypesChecked(db) && Preflight(db).Pass? && Updated(db, db') && k in db.revisions
    ensures |ExactRequests(db, db.revisions[k])| == 1
    ensures db'.revisions[k] == WithClass(db.revisions[k], TheRequest(db, db.revisions[k]).classification)
  {
    PreflightRow(db, k);
    hide Preflight, WithClass, KnownClass, DefinitelyLower;
    var v := db.revisions[k];
    var s :| s in db.requests && Joins(v, db.requests[s])
             && db'.revisions[k] == WithClass(v, db.requests[s].classification);
    TheRequestJoins(db, v, s);
  }

  /** What one updated row satisfies. */
  ghost predicate Conforms(db: Database, v: Revision) {
    && v.requestClassification.Some?
    && KnownClass(v.requestClassification.value)
    && !DefinitelyLower(v.identity.classification, v.requestClassification.value)
    && v.payload.Object? && COLUMN in v.payload.fields
    && v.payload.fields[COLUMN] == Text(v.requestClassification.value)
    && (exists r | r in db.requests ::
          Joins(v, db.requests[r]) && db.requests[r].classification == v.requestClassification.value)
    && forall r | r in db.requests && Joins(v, db.requests[r]) ::
         db.requests[r].classification == v.requestClassification.value
  }

  lemma UpdatedRowConforms(db: Database, db': Database, k: Key)
    requires TypesChecked(db) && Preflight(db).Pass? && Updated(db, db') && k in db.revisions
    ensures Conforms(db', db'.revisions[k])
  {
    PreflightRow(db, k);
    UpdatedRow(db, db', k);
    var v := db.revisions[k];
    assert db'.requests == db.requests && v.requestType == EXECUTION_REQUEST;
    hide Preflight, KnownClass, DefinitelyLower, Updated, TypesChecked, Conforms;
    WithClassConforms(db, db', v);
  }

  lemma WithClassConforms(db: Database, db': Database, v: Revision)
    requires |ExactRequests(db, v)| == 1 && v.requestType == EXECUTION_REQUEST && db'.requests == db.requests
    requires Joins(v, TheRequest(db, v)) && KnownClass(TheRequest(db, v).classification)
    requires exists r | r in db.requests :: db.requests[r] == TheRequest(db, v)
    requires v.payload.Object?
    requires !DefinitelyLower(v.identity.classification, TheRequest(db, v).classification)
    ensures Conforms(db', WithClass(v, TheRequest(db, v).classification))
  {
    var q := TheRequest(db, v);
    var v' := WithClass(v, q.classification);
    var r :| r in db.requests && db.requests[r] == q;
    hide KnownClass, DefinitelyLower;
    forall s | s in db'.requests && Joins(v', db'.requests[s]) ensures db'.requests[s] == q {
      TheRequestJoins(db, v, s);
    }
    hide TheRequest, ExactRequests;
    assert Joins(v', db'.requests[r]);
  }

  lemma ConformingRowsSatisfy(db: Database)
    requires forall k | k in db.revisions :: Conforms(db, db.revisions[k])
    ensures NotNull(db) && RequestReferenced(db) && ClassChecked(db) && NotLoweredChecked(db)
    ensures !VerificationFinds(db)
  {
  }

  /** When preflight passes, the updated rows satisfy every new constraint and the
      verification query finds nothing, so no later step of the migration raises. */
  lemma UpdateEstablishesNewConstraints(db: Database, db': Database)
    requires TypesChecked(db) && Preflight(db).Pass? && Updated(db, db')
    ensures NewConstraints(db') && !VerificationFinds(db')
  {
    forall k | k in db'.revisions ensures Conforms(db', db'.revisions[k]) {
      UpdatedRowConforms(db, db', k);
    }
    ConformingRowsSatisfy(db');
    hide MissingOrAmbiguous, InvalidClass, Disagreeing, Lowered, BadPayload, KeyPresent, Conforms, TypesChecked;
    hide NotNull, RequestReferenced, ClassChecked, NotLoweredChecked, VerificationFinds;
    assert !DuplicateAttempt(db);
  }

  function DropKey(p: Payload): Payload {
    if p.Object? then Object(p.fields - {COLUMN}) else p
  }

  /** The migration loses nothing: dropping the added key and column gives back every row,
      and the payload names the same class as the column. */
  lemma UpdateIsReversible(db: Database, db': Database, k: Key)
    requires TypesChecked(db) && Preflight(db).Pass? && Updated(db, db') && k in db.revisions
    ensures var v, v' := db.revisions[k], db'.revisions[k];
            && v'.(payload := DropKey(v'.payload), requestClassification := v.requestClassification) == v
            && v'.payload.Object? && COLUMN in v'.payload.fields
            && v'.payload.fields[COLUMN] == Text(v'.requestClassification.value)
            && v'.requestClassification == Some(TheRequest(db, v).classification)
  {
    PreflightRow(db, k);
    UpdatedRow(db, db', k);
    WithClassReverses(db.revisions[k], TheRequest(db, db.revisions[k]).classification);
    hide *;
  }

  lemma WithClassReverses(v: Revision, c: string)
    requires v.payload.Object? && COLUMN !in v.payload.fields
    ensures var v' := WithClass(v, c);
            && v'.(payload := DropKey(v'.payload), requestClassification := v.requestClassification) == v
            && v'.payload.Object? && COLUMN in v'.payload.fields
            && v'.payload.fields[COLUMN] == Text(c) && v'.requestClassification == Some(c)
  {
  }

  /** On an older-valid database the backfilled class is the row's own classification. */
  lemma BackfilledClassIsOwn(db: Database, db': Database, k: Key)
    requires OlderConstraints(db) && Preflight(db).Pass? && Updated(db, db') && k in db.revisions
    ensures db'.revisions[k].requestClassification == Some(db.revisions[k].identity.classification)
  {
    UpdatedRow(db, db', k);
    var r :| r in db.requests && db.requests[r] == TheRequest(db, db.revisions[k]);
    OneJoin(db, k, r);
  }

  /** The older reference included the row's own classification; the older constraints
      all survive the update. */
  lemma OlderConstraintsSurvive(db: Database, db': Database)
    requires OlderConstraints(db) && Preflight(db).Pass? && Updated(db, db')
    ensures OlderConstraints(db')
  {
    forall k | k in db'.revisions
      ensures db'.revisions[k].identity == db.revisions[k].identity
      ensures db'.revisions[k].requestType == db.revisions[k].requestType
      ensures exists r | r in db'.requests :: Joins(db'.revisions[k], db'.requests[r])
                && db'.requests[r].classification == db'.revisions[k].identity.classification
    {
      UpdatedRow(db, db', k);
      var r :| r in db.requests && db.requests[r] == TheRequest(db, db.revisions[k]);
      OneJoin(db, k, r);
      assert Joins(db'.revisions[k], db'.requests[r]);
    }
  }

  // ---- the migration

  datatype Schema = Schema(notNull: bool, requestClassInReference: bool, attemptUniqueAcrossClasses: bool, checks: bool)

  class Migration {
    var db: Database
    var schema: Schema
    var immutable: bool

    constructor (db: Database)
      ensures this.db == db && immutable && schema == Schema(false, false, false, false)
    {
      this.db, immutable, schema := db, true, Schema(false, false, false, false);
    }

    /** One `UPDATE` over every joined row; the order of the rows does not matter. */
    method UpdateRows()
      requires !immutable
      modifies `db
      ensures Updated(old(db), db)
    {
      var before := db;
      var todo := before.revisions.Keys;
      while todo != {}
        invariant todo <= before.revisions.Keys
        invariant db.identities == before.identities && db.requests == before.requests
        invariant db.revisions.Keys == before.revisions.Keys
        invariant forall k | k in todo :: db.revisions[k] == before.revisions[k]
        invariant forall k | k in before.revisions.Keys - todo ::
                    if exists r | r in before.requests :: Joins(before.revisions[k], before.requests[r])
                    then exists r | r in before.requests :: Joins(before.revisions[k], before.requests[r])
                           && db.revisions[k] == WithClass(before.revisions[k], before.requests[r].classification)
                    else db.revisions[k] == before.revisions[k]
        decreases |todo|
      {
        var k :| k in todo;
        todo := todo - {k};
        if exists r | r in before.requests :: Joins(before.revisions[k], before.requests[r]) {
          var r :| r in before.requests && Joins(before.revisions[k], before.requests[r]);
          db := db.(revisions := db.revisions[k := WithClass(db.revisions[k], before.requests[r].classification)]);
        }
      }
    }

    /** The whole migration in one transaction. With the record types checked it raises
        only in preflight, and then nothing has changed. */
    method Upgrade() returns (r: Outcome<Error>)
      requires TypesChecked(db) && immutable && schema == Schema(false, false, false, false)
      modifies this
      ensures r == Preflight(old(db))
      ensures r.Fail? ==> db == old(db) && schema == old(schema)
      ensures r.Pass? ==> Updated(old(db), db) && NewConstraints(db) && schema == Schema(true, true, true, true)
      ensures immutable
    {
      ghost var before := db;
      r := Preflight(db);
      if r.Fail? { return; }
      immutable := false;
      UpdateRows();
      UpdateEstablishesNewConstraints(before, db);
      if VerificationFinds(db) { return Fail(VerificationFailed); }
      if !NotNull(db) { return Fail(ConstraintViolated); }
      schema := schema.(notNull := true);
      if !RequestReferenced(db) { return Fail(ConstraintViolated); }
      schema := schema.(requestClassInReference := true);
      if !AttemptUnique(db) { return Fail(ConstraintViolated); }
      schema := schema.(attemptUniqueAcrossClasses := true);
      if !ClassChecked(db) { return Fail(ConstraintViolated); }
      if !NotLoweredChecked(db) { return Fail(ConstraintViolated); }
      schema := schema.(checks := true);
      immutable := true;
      return Pass;
    }
  }
}
