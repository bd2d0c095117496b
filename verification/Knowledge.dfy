/** The knowledge tables and the effect of ingesting one connector record:
    find or create the source and the document, drop content already stored under
    the same hash, otherwise append the next version with its citation and job. */
module Knowledge {
  import opened Common

  // ---- rows; a row's identity is its position in its table

  datatype Source = Source(org: Id, sourceType: string, name: string, externalId: Option<string>)

  /** `details` stands for the columns no lookup reads: title, classification, text, metadata. */
  datatype Document = Document(org: Id, source: nat, externalId: Option<string>, details: string)

  datatype Version = Version(org: Id, document: nat, number: nat, hash: string, details: string)

  datatype Citation = Citation(org: Id, source: nat, document: nat, version: nat, number: nat, hash: string, details: string)

  datatype JobStatus = DuplicateJob | SucceededJob

  datatype Job = Job(org: Id, source: nat, document: nat, status: JobStatus, hash: string)

  datatype Tables = Tables(
    sources: seq<Source>,
    documents: seq<Document>,
    versions: seq<Version>,
    citations: seq<Citation>,
    jobs: seq<Job>)

  const EMPTY := Tables([], [], [], [], [])

  /** A normalized record. Connector name and external identity may be absent. */
  datatype Record = Record(
    sourceType: string, connector: Option<string>, externalId: Option<string>, hash: string, details: string)

  datatype Status = Created | Updated | Duplicate

  datatype Violation = DuplicateSource | DuplicateDocument | DuplicateVersion | BadHash

  // ---- lookups and constraints

  function SourceName(connector: Option<string>): string {
    "Connector: " + (match connector case None => "None" case Some(n) => n)
  }

  function FindSource(k: Tables, org: Id, sourceType: string, connector: Option<string>): Option<nat> {
    FirstIndex(k.sources, (s: Source) => s.org == org && s.sourceType == sourceType && s.externalId == connector)
  }

  function FindDocument(k: Tables, org: Id, source: nat, externalId: Option<string>): Option<nat> {
    FirstIndex(k.documents, (d: Document) => d.org == org && d.source == source && d.externalId == externalId)
  }

  predicate HasHash(k: Tables, org: Id, document: nat, hash: string) {
    exists v | v in k.versions :: v.org == org && v.document == document && v.hash == hash
  }

  /** `coalesce(max(version), 0)` over one document's rows. */
  function MaxVersion(versions: seq<Version>, org: Id, document: nat): nat {
    if versions == [] then 0
    else
      var last := versions[|versions| - 1];
      var rest := MaxVersion(versions[..|versions| - 1], org, document);
      if last.org == org && last.document == document then Max(last.number, rest) else rest
  }

  /** Unique constraints skip rows whose external identity is NULL. */
  predicate SourceAdmissible(k: Tables, row: Source) {
    && (forall s | s in k.sources :: !(s.org == row.org && s.name == row.name))
    && (row.externalId.Some? ==>
          forall s | s in k.sources ::
            !(s.org == row.org && s.sourceType == row.sourceType && s.externalId == row.externalId))
  }

  predicate DocumentAdmissible(k: Tables, row: Document) {
    row.externalId.Some? ==>
      forall d | d in k.documents :: !(d.org == row.org && d.source == row.source && d.externalId == row.externalId)
  }

  predicate VersionAdmissible(k: Tables, row: Version) {
    && (forall v | v in k.versions :: !(v.org == row.org && v.document == row.document && v.number == row.number))
    && (forall v | v in k.versions :: !(v.org == row.org && v.document == row.document && v.hash == row.hash))
  }

  const HASH_LENGTH := 64

  // ---- the effect of one ingestion

  function WithSource(k: Tables, org: Id, r: Record): Result<(Tables, nat), Violation> {
    match FindSource(k, org, r.sourceType, r.connector)
    case Some(i) => Ok((k, i))
    case None =>
      var row := Source(org, r.sourceType, SourceName(r.connector), r.connector);
      if SourceAdmissible(k, row) then Ok((k.(sources := k.sources + [row]), |k.sources|)) else Err(DuplicateSource)
  }

  /** The flag says whether the document is new. */
  function WithDocument(k: Tables, org: Id, source: nat, r: Record): Result<(Tables, nat, bool), Violation> {
    match FindDocument(k, org, source, r.externalId)
    case Some(i) => Ok((k, i, false))
    case None =>
      var row := Document(org, source, r.externalId, r.details);
      if DocumentAdmissible(k, row)
      then Ok((k.(documents := k.documents + [row]), |k.documents|, true))
      else Err(DuplicateDocument)
  }

  function WithVersion(k: Tables, org: Id, source: nat, document: nat, r: Record): Result<Tables, Violation> {
    var number := MaxVersion(k.versions, org, document) + 1;
    var row := Version(org, document, number, r.hash, r.details);
    if |r.hash| != HASH_LENGTH then Err(BadHash)
    else if !VersionAdmissible(k, row) then Err(DuplicateVersion)
    else Ok(k.(
            versions := k.versions + [row],
            citations := k.citations + [Citation(org, source, document, |k.versions|, number, r.hash, r.details)],
            jobs := k.jobs + [Job(org, source, document, SucceededJob, r.hash)]))
  }

  function Ingested(k: Tables, org: Id, r: Record): Result<(Tables, Status), Violation> {
    match WithSource(k, org, r)
    case Err(e) => Err(e)
    case Ok((k1, source)) =>
      match WithDocument(k1, org, source, r)
      case Err(e) => Err(e)
      case Ok((k2, document, isNew)) =>
        if HasHash(k2, org, document, r.hash) then
          Ok((k2.(jobs := k2.jobs + [Job(org, source, document, DuplicateJob, r.hash)]), Duplicate))
        else
          match WithVersion(k2, org, source, document, r)
          case Err(e) => Err(e)
          case Ok(k3) => Ok((k3, if isNew then Created else Updated))
  }

  /** All records in order, with the number that were not duplicates. */
  function IngestedAll(k: Tables, org: Id, rs: seq<Record>): Result<(Tables, nat), Violation>
    decreases |rs|
  {
    if rs == [] then Ok((k, 0))
    else
      match Ingested(k, org, rs[0])
      case Err(e) => Err(e)
      case Ok((k1, status)) =>
        match IngestedAll(k1, org, rs[1..])
        case Err(e) => Err(e)
        case Ok((k2, created)) => Ok((k2, created + if status.Duplicate? then 0 else 1))
  }

  // ---- the invariant

  /** The database's own constraints: references, uniqueness and hash length. */
  ghost predicate Constrained(k: Tables) {
    && (forall d | d in k.documents :: d.source < |k.sources| && d.org == k.sources[d.source].org)
    && (forall v | v in k.versions ::
          v.document < |k.documents| && v.org == k.documents[v.document].org && |v.hash| == HASH_LENGTH)
    && (forall i, j | 0 <= i < j < |k.sources| ::
          !(k.sources[i].org == k.sources[j].org && k.sources[i].name == k.sources[j].name))
    && (forall i, j | 0 <= i < j < |k.documents| && k.documents[i].externalId.Some? ::
          !(k.documents[i].source == k.documents[j].source && k.documents[i].externalId == k.documents[j].externalId))
  }

  /** One document's versions in the order they were stored. */
  function VersionsOf(versions: seq<Version>, document: nat): seq<Version> {
    if versions == [] then []
    else
      var last := versions[|versions| - 1];
      VersionsOf(versions[..|versions| - 1], document) + (if last.document == document then [last] else [])
  }

  ghost predicate Gapless(history: seq<Version>) {
    && (forall i | 0 <= i < |history| :: history[i].number == i + 1)
    && (forall i, j | 0 <= i < j < |history| :: history[i].hash != history[j].hash)
  }

  ghost predicate Numbered(k: Tables) {
    forall document: nat :: Gapless(VersionsOf(k.versions, document))
  }

  /** The i-th citation is the i-th version's, with its number, hash and source. */
  ghost predicate Cited(k: Tables) {
    && |k.citations| == |k.versions|
    && forall i | 0 <= i < |k.versions| ::
         var v, c := k.versions[i], k.citations[i];
         && c.version == i && c.org == v.org && c.document == v.document && c.number == v.number
         && c.hash == v.hash && c.details == v.details
         && v.document < |k.documents| && c.source == k.documents[v.document].source
  }

  datatype Trace = Trace(org: Id, document: nat, hash: string)

  function JobTrace(jobs: seq<Job>): seq<Trace> {
    if jobs == [] then []
    else
      var last := jobs[|jobs| - 1];
      JobTrace(jobs[..|jobs| - 1])
      + (if last.status.SucceededJob? then [Trace(last.org, last.document, last.hash)] else [])
  }

  function VersionTrace(versions: seq<Version>): seq<Trace> {
    seq(|versions|, i requires 0 <= i < |versions| => Trace(versions[i].org, versions[i].document, versions[i].hash))
  }

  ghost predicate Inv(k: Tables) {
    && Constrained(k) && Numbered(k) && Cited(k)
    && JobTrace(k.jobs) == VersionTrace(k.versions)
  }

  // ---- one document's history

  lemma {:induction false} HistoryHolds(versions: seq<Version>, v: Version)
    requires v in versions
    ensures v in VersionsOf(versions, v.document)
  {
    var n := |versions| - 1;
    assert versions == versions[..n] + [versions[n]];
    if v != versions[n] {
      HistoryHolds(versions[..n], v);
    }
  }

  lemma {:induction false} HistoryIsOwn(versions: seq<Version>, document: nat)
    ensures forall v | v in VersionsOf(versions, document) :: v in versions && v.document == document
  {
    if versions != [] {
      var n := |versions| - 1;
      HistoryIsOwn(versions[..n], document);
      assert versions == versions[..n] + [versions[n]];
    }
  }

  lemma HistoryAppends(versions: seq<Version>, v: Version, document: nat)
    ensures VersionsOf(versions + [v], document)
         == VersionsOf(versions, document) + (if v.document == document then [v] else [])
  {
  }

  /** The largest stored number of a gapless document is its length. */
  lemma {:induction false} MaxIsLength(versions: seq<Version>, org: Id, document: nat)
    requires Gapless(VersionsOf(versions, document))
    requires forall v | v in versions && v.document == document :: v.org == org
    ensures MaxVersion(versions, org, document) == |VersionsOf(versions, document)|
  {
    if versions != [] {
      var n := |versions| - 1;
      var last, rest := versions[n], versions[..n];
      assert versions == rest + [last];
      var before := VersionsOf(rest, document);
      var all := VersionsOf(versions, document);
      assert before == all[..|before|];
      assert Gapless(before) by {
        forall i | 0 <= i < |before| ensures before[i].number == i + 1 { assert all[i] == before[i]; }
        forall i, j | 0 <= i < j < |before| ensures before[i].hash != before[j].hash {
          assert all[i] == before[i] && all[j] == before[j];
        }
      }
      MaxIsLength(rest, org, document);
      if last.document == document {
        assert all[|before|] == last;
      }
    }
  }

  /** The version constraints never reject an ingestion: the next number is free,
      and a stored hash would have been found as a duplicate. */
  lemma NextVersionAdmissible(k: Tables, org: Id, document: nat, r: Record)
    requires Inv(k) && document < |k.documents| && k.documents[document].org == org
    requires !HasHash(k, org, document, r.hash)
    ensures var number := MaxVersion(k.versions, org, document) + 1;
            && number == |VersionsOf(k.versions, document)| + 1
            && VersionAdmissible(k, Version(org, document, number, r.hash, r.details))
  {
    var history := VersionsOf(k.versions, document);
    MaxIsLength(k.versions, org, document);
    forall v | v in k.versions && v.document == document ensures v.number <= |history| {
      HistoryHolds(k.versions, v);
      var i :| 0 <= i < |history| && history[i] == v;
    }
  }

  // ---- every ingestion keeps the invariant

  lemma SourceKeeps(k: Tables, org: Id, r: Record)
    requires Inv(k) && WithSource(k, org, r).Ok?
    ensures var (k1, source) := WithSource(k, org, r).value;
            && Inv(k1) && source < |k1.sources| && k1.sources[source].org == org
            && k1.sources[source].sourceType == r.sourceType && k1.sources[source].externalId == r.connector
            && k1.documents == k.documents && k1.versions == k.versions
            && k1.citations == k.citations && k1.jobs == k.jobs && k.sources <= k1.sources
  {
    var (k1, source) := WithSource(k, org, r).value;
    if FindSource(k, org, r.sourceType, r.connector).None? {
      assert Constrained(k1);
      assert Numbered(k1);
      assert Cited(k1);
    }
  }

  lemma DocumentKeeps(k: Tables, org: Id, source: nat, r: Record)
    requires Inv(k) && source < |k.sources| && k.sources[source].org == org
    requires WithDocument(k, org, source, r).Ok?
    ensures var (k1, document, isNew) := WithDocument(k, org, source, r).value;
            && Inv(k1) && document < |k1.documents|
            && k1.documents[document].org == org && k1.documents[document].source == source
            && k1.documents[document].externalId == r.externalId
            && (isNew ==> document == |k.documents| && !HasHash(k1, org, document, r.hash))
            && k1.sources == k.sources && k1.versions == k.versions && k1.citations == k.citations
            && k1.jobs == k.jobs && k.documents <= k1.documents
  {
    var (k1, document, isNew) := WithDocument(k, org, source, r).value;
    if isNew {
      assert Constrained(k1) by {
        var docs := k1.documents;
        forall i, j | 0 <= i < j < |docs| && docs[i].externalId.Some?
          ensures !(docs[i].source == docs[j].source && docs[i].externalId == docs[j].externalId)
        {
          assert docs[i] in k.documents;
        }
      }
      assert Numbered(k1);
      assert Cited(k1);
    }
  }

  /** Appending the next version keeps every history gapless. */
  lemma NumberingGrows(k: Tables, row: Version)
    requires Numbered(k) && row.number == |VersionsOf(k.versions, row.document)| + 1
    requires forall v | v in k.versions && v.document == row.document :: v.hash != row.hash
    ensures Numbered(k.(versions := k.versions + [row]))
  {
    forall d: nat ensures Gapless(VersionsOf(k.versions + [row], d)) {
      HistoryAppends(k.versions, row, d);
      var before := VersionsOf(k.versions, d);
      assert Gapless(before);
      HistoryIsOwn(k.versions, d);
      if d == row.document {
        forall i | 0 <= i < |before| ensures before[i].hash != row.hash {
          assert before[i] in k.versions;
        }
      }
    }
  }

  /** A stored version with its job and citation keeps traces and citations aligned. */
  lemma RecordsGrow(k: Tables, row: Version, citation: Citation, job: Job)
    requires Constrained(k) && Cited(k) && JobTrace(k.jobs) == VersionTrace(k.versions)
    requires row.document < |k.documents| && row.org == k.documents[row.document].org && |row.hash| == HASH_LENGTH
    requires job == Job(row.org, k.documents[row.document].source, row.document, SucceededJob, row.hash)
    requires citation == Citation(row.org, k.documents[row.document].source, row.document, |k.versions|, row.number,
                                  row.hash, row.details)
    ensures var k1 := k.(versions := k.versions + [row], citations := k.citations + [citation], jobs := k.jobs + [job]);
            Constrained(k1) && Cited(k1) && JobTrace(k1.jobs) == VersionTrace(k1.versions)
  {
    assert (k.jobs + [job])[..|k.jobs|] == k.jobs;
    assert VersionTrace(k.versions + [row]) == VersionTrace(k.versions) + [Trace(row.org, row.document, row.hash)];
  }

  lemma VersionKeeps(k: Tables, org: Id, source: nat, document: nat, r: Record)
    requires Inv(k) && document < |k.documents|
    requires k.documents[document].org == org && k.documents[document].source == source
    requires !HasHash(k, org, document, r.hash) && |r.hash| == HASH_LENGTH
    ensures WithVersion(k, org, source, document, r).Ok?
    ensures Inv(WithVersion(k, org, source, document, r).value)
  {
    NextVersionAdmissible(k, org, document, r);
    var number := MaxVersion(k.versions, org, document) + 1;
    var row := Version(org, document, number, r.hash, r.details);
    forall v | v in k.versions && v.document == document ensures v.hash != r.hash {
      assert v.org == org;
    }
    hide Constrained, Numbered, Cited, VersionAdmissible, MaxVersion;
    NumberingGrows(k, row);
    RecordsGrow(k, row, Citation(org, source, document, |k.versions|, number, r.hash, r.details),
                Job(org, source, document, SucceededJob, r.hash));
    NumberingIsOfVersions(k.(versions := k.versions + [row]), WithVersion(k, org, source, document, r).value);
  }

  lemma NumberingIsOfVersions(a: Tables, b: Tables)
    requires Numbered(a) && b.versions == a.versions
    ensures Numbered(b)
  {
  }

  lemma DuplicateKeeps(k: Tables, job: Job)
    requires Inv(k) && job.status.DuplicateJob?
    ensures Inv(k.(jobs := k.jobs + [job]))
  {
  }

  lemma IngestKeepsInvariant(k: Tables, org: Id, r: Record)
    requires Inv(k) && Ingested(k, org, r).Ok?
    ensures Inv(Ingested(k, org, r).value.0)
  {
    SourceKeeps(k, org, r);
    var (k1, source) := WithSource(k, org, r).value;
    DocumentKeeps(k1, org, source, r);
    var (k2, document, _) := WithDocument(k1, org, source, r).value;
    if HasHash(k2, org, document, r.hash) {
      DuplicateKeeps(k2, Job(org, source, document, DuplicateJob, r.hash));
    } else {
      VersionKeeps(k2, org, source, document, r);
    }
  }

  /** Over any sequence of ingestions every document's versions stay 1..n with
      distinct hashes, one citation each, and one succeeded job each. */
  lemma {:induction false} IngestAllKeepsInvariant(k: Tables, org: Id, rs: seq<Record>)
    requires Inv(k) && IngestedAll(k, org, rs).Ok?
    ensures Inv(IngestedAll(k, org, rs).value.0)
    decreases |rs|
  {
    if rs != [] {
      IngestKeepsInvariant(k, org, rs[0]);
      IngestAllKeepsInvariant(Ingested(k, org, rs[0]).value.0, org, rs[1..]);
    }
  }

  lemma EmptyTablesSatisfyInvariant()
    ensures Inv(EMPTY)
  {
  }
}
