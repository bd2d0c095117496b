/** What a whole batch of ingestions amounts to: a union of (document key, hash)
    pairs, exactly when a condition on the input holds, and nothing new on a rerun. */
module KnowledgeLaws {
  import opened Common
  import opened Knowledge

  datatype DocumentKey = DocumentKey(sourceType: string, connector: Option<string>, externalId: Option<string>)

  function KeyOf(r: Record): DocumentKey {
    DocumentKey(r.sourceType, r.connector, r.externalId)
  }

  function PairOf(r: Record): (DocumentKey, string) {
    (KeyOf(r), r.hash)
  }

  function Pair(k: Tables, v: Version): (DocumentKey, string)
    requires v.document < |k.documents| && k.documents[v.document].source < |k.sources|
  {
    var d := k.documents[v.document];
    (DocumentKey(k.sources[d.source].sourceType, k.sources[d.source].externalId, d.externalId), v.hash)
  }

  /** The content one organization holds, without numbering or order. */
  ghost function Holdings(k: Tables, org: Id): set<(DocumentKey, string)>
    requires Constrained(k)
  {
    set v | v in k.versions && v.org == org :: Pair(k, v)
  }

  /** Every table only grows at its end: nothing stored is ever rewritten. */
  ghost predicate Extends(old_: Tables, new_: Tables) {
    && old_.sources <= new_.sources && old_.documents <= new_.documents && old_.versions <= new_.versions
    && old_.citations <= new_.citations && old_.jobs <= new_.jobs
  }

  // ---- one record

  /** What one ingestion does to the tables, seen from outside. */
  ghost predicate Grown(k: Tables, k': Tables, org: Id, p: (DocumentKey, string), duplicate: bool) {
    && Constrained(k) && Constrained(k') && Extends(k, k')
    && |k'.jobs| == |k.jobs| + 1
    && |k'.versions| == |k.versions| + (if duplicate then 0 else 1)
    && |k'.citations| == |k.citations| + (if duplicate then 0 else 1)
    && (if duplicate then exists v :: v in k.versions && v.org == org && Pair(k, v) == p
        else var v := k'.versions[|k.versions|]; v in k'.versions && v.org == org && Pair(k', v) == p)
  }

  lemma IngestGrows(k: Tables, org: Id, r: Record)
    requires Inv(k) && Ingested(k, org, r).Ok?
    ensures var (k', status) := Ingested(k, org, r).value;
            Inv(k') && Grown(k, k', org, PairOf(r), status.Duplicate?)
  {
    IngestKeepsInvariant(k, org, r);
    SourceKeeps(k, org, r);
    var (k1, source) := WithSource(k, org, r).value;
    DocumentKeeps(k1, org, source, r);
    var (k2, document, isNew) := WithDocument(k1, org, source, r).value;
    var (k', status) := Ingested(k, org, r).value;
    if HasHash(k2, org, document, r.hash) {
      var v :| v in k2.versions && v.org == org && v.document == document && v.hash == r.hash;
      assert v in k.versions && Pair(k, v) == PairOf(r);
    } else {
      VersionKeeps(k2, org, source, document, r);
      var v := k'.versions[|k.versions|];
      assert v in k'.versions && v.org == org && Pair(k', v) == PairOf(r);
    }
  }

  lemma PairsPersist(k: Tables, k': Tables, v: Version)
    requires Constrained(k) && Constrained(k') && Extends(k, k') && v in k.versions
    ensures v in k'.versions && Pair(k', v) == Pair(k, v)
  {
  }

  lemma GrowthAddsOnlyPair(k: Tables, k': Tables, org: Id, p: (DocumentKey, string), duplicate: bool, v: Version)
    requires Grown(k, k', org, p, duplicate) && v in k'.versions
    ensures (v in k.versions && Pair(k', v) == Pair(k, v)) || (v.org == org && Pair(k', v) == p)
  {
  }

  lemma GrowthHoldsPair(k: Tables, k': Tables, org: Id, p: (DocumentKey, string), duplicate: bool)
    requires Grown(k, k', org, p, duplicate)
    ensures p in Holdings(k', org)
  {
  }

  /** A growth step adds its pair to its organization's holdings, and nothing else. */
  lemma GrowthAddsPair(k: Tables, k': Tables, org: Id, p: (DocumentKey, string), duplicate: bool, other: Id)
    requires Grown(k, k', org, p, duplicate)
    ensures Holdings(k', other) == Holdings(k, other) + (if other == org then {p} else {})
  {
    assert Constrained(k) && Constrained(k') && Extends(k, k');
    hide Grown, Constrained, Extends, Pair;
    GrowthHoldsPair(k, k', org, p, duplicate);
    forall v | v in k'.versions
      ensures (v in k.versions && Pair(k', v) == Pair(k, v)) || (v.org == org && Pair(k', v) == p)
    {
      GrowthAddsOnlyPair(k, k', org, p, duplicate, v);
    }
    forall v | v in k.versions ensures v in k'.versions && Pair(k', v) == Pair(k, v) {
      PairsPersist(k, k', v);
    }
  }

  // ---- a batch

  function PairsOf(rs: seq<Record>): set<(DocumentKey, string)> {
    set r | r in rs :: PairOf(r)
  }

  lemma PairsOfHead(rs: seq<Record>)
    requires rs != []
    ensures PairsOf(rs) == {PairOf(rs[0])} + PairsOf(rs[1..])
  {
  }

  lemma BatchHead(k: Tables, org: Id, rs: seq<Record>)
    requires rs != [] && IngestedAll(k, org, rs).Ok?
    ensures Ingested(k, org, rs[0]).Ok?
    ensures var (k1, status) := Ingested(k, org, rs[0]).value;
            && IngestedAll(k1, org, rs[1..]).Ok?
            && IngestedAll(k, org, rs).value.0 == IngestedAll(k1, org, rs[1..]).value.0
            && IngestedAll(k, org, rs).value.1
               == IngestedAll(k1, org, rs[1..]).value.1 + if status.Duplicate? then 0 else 1
  {
  }

  /** The whole tables after a batch, against the batch's own content. */
  ghost predicate Absorbed(k: Tables, k': Tables, org: Id, rs: seq<Record>, created: nat, other: Id) {
    && Constrained(k) && Constrained(k') && Extends(k, k')
    && Holdings(k', other) == Holdings(k, other) + (if other == org then PairsOf(rs) else {})
    && created == |k'.versions| - |k.versions| == |k'.citations| - |k.citations|
    && created <= |rs| && |k'.jobs| == |k.jobs| + |rs|
  }

  lemma AbsorbedHead(k: Tables, k1: Tables, k': Tables, org: Id, rs: seq<Record>, duplicate: bool, created: nat, other: Id)
    requires rs != [] && Grown(k, k1, org, PairOf(rs[0]), duplicate) && Absorbed(k1, k', org, rs[1..], created, other)
    ensures Absorbed(k, k', org, rs, created + (if duplicate then 0 else 1), other)
  {
    GrowthAddsPair(k, k1, org, PairOf(rs[0]), duplicate, other);
    PairsOfHead(rs);
  }

  /** After a batch the holdings are the old ones united with the batch's pairs, and
      the created count is the number of stored versions it added. */
  lemma {:induction false} BatchIsUnion(k: Tables, org: Id, rs: seq<Record>, other: Id)
    requires Inv(k) && IngestedAll(k, org, rs).Ok?
    ensures var (k', created) := IngestedAll(k, org, rs).value;
            Inv(k') && Absorbed(k, k', org, rs, created, other)
    decreases |rs|
  {
    if rs != [] {
      BatchHead(k, org, rs);
      IngestGrows(k, org, rs[0]);
      var (k1, status) := Ingested(k, org, rs[0]).value;
      BatchIsUnion(k1, org, rs[1..], other);
      var (k', created) := IngestedAll(k1, org, rs[1..]).value;
      AbsorbedHead(k, k1, k', org, rs, status.Duplicate?, created, other);
    }
  }

  // ---- exactly when a batch succeeds

  predicate NeedsSource(k: Tables, org: Id, r: Record) {
    FindSource(k, org, r.sourceType, r.connector).None?
  }

  predicate NameTaken(k: Tables, org: Id, name: string) {
    exists s | s in k.sources :: s.org == org && s.name == name
  }

  /** Every hash has its length, and a source name that must be created is free and
      is not claimed by two different source identities of the batch. */
  predicate Compatible(k: Tables, org: Id, rs: seq<Record>) {
    && (forall r | r in rs :: |r.hash| == HASH_LENGTH)
    && (forall r | r in rs && NeedsSource(k, org, r) :: !NameTaken(k, org, SourceName(r.connector)))
    && (forall r, r' | r in rs && r' in rs && NeedsSource(k, org, r) && NeedsSource(k, org, r') ::
          SourceName(r.connector) == SourceName(r'.connector) ==>
            r.sourceType == r'.sourceType && r.connector == r'.connector)
  }

  lemma IngestSucceedsIff(k: Tables, org: Id, r: Record)
    requires Inv(k)
    ensures Ingested(k, org, r).Ok? <==>
            |r.hash| == HASH_LENGTH && (NeedsSource(k, org, r) ==> !NameTaken(k, org, SourceName(r.connector)))
    ensures Ingested(k, org, r).Err? ==> Ingested(k, org, r).error in {DuplicateSource, BadHash}
  {
    hide Inv, Constrained, Numbered, Cited, WithVersion;
    if WithSource(k, org, r).Ok? {
      SourceKeeps(k, org, r);
      var (k1, source) := WithSource(k, org, r).value;
      assert WithDocument(k1, org, source, r).Ok?;
      DocumentKeeps(k1, org, source, r);
      var (k2, document, _) := WithDocument(k1, org, source, r).value;
      if !HasHash(k2, org, document, r.hash) {
        if |r.hash| == HASH_LENGTH {
          VersionKeeps(k2, org, source, document, r);
        } else {
          WrongLengthFails(k2, org, source, document, r);
        }
      } else {
        StoredHashHasLength(k2, org, document, r.hash);
      }
    }
  }

  lemma WrongLengthFails(k: Tables, org: Id, source: nat, document: nat, r: Record)
    requires |r.hash| != HASH_LENGTH
    ensures WithVersion(k, org, source, document, r) == Err(BadHash)
  {
  }

  lemma StoredHashHasLength(k: Tables, org: Id, document: nat, hash: string)
    requires Inv(k) && HasHash(k, org, document, hash)
    ensures |hash| == HASH_LENGTH
  {
  }

  lemma SourcesAfter(k: Tables, org: Id, r: Record)
    requires Inv(k) && Ingested(k, org, r).Ok?
    ensures Ingested(k, org, r).value.0.sources ==
            k.sources + (if NeedsSource(k, org, r)
                         then [Source(org, r.sourceType, SourceName(r.connector), r.connector)] else [])
  {
    SourceKeeps(k, org, r);
    var (k1, source) := WithSource(k, org, r).value;
    DocumentKeeps(k1, org, source, r);
  }

  lemma NeedsSourceAfter(k: Tables, k': Tables, org: Id, row: Source, r: Record)
    requires row.org == org && k'.sources == k.sources + [row]
    ensures NeedsSource(k', org, r) <==>
            NeedsSource(k, org, r) && !(row.sourceType == r.sourceType && row.externalId == r.connector)
    ensures NameTaken(k', org, SourceName(r.connector)) <==>
            NameTaken(k, org, SourceName(r.connector)) || row.name == SourceName(r.connector)
  {
    assert row in k'.sources;
    forall s | s in k.sources ensures s in k'.sources { }
  }

  lemma CompatibleAfterNewSource(k: Tables, k': Tables, org: Id, r: Record, tail: seq<Record>)
    requires |r.hash| == HASH_LENGTH && NeedsSource(k, org, r) && !NameTaken(k, org, SourceName(r.connector))
    requires k'.sources == k.sources + [Source(org, r.sourceType, SourceName(r.connector), r.connector)]
    ensures Compatible(k, org, [r] + tail) <==> Compatible(k', org, tail)
  {
    var row := Source(org, r.sourceType, SourceName(r.connector), r.connector);
    var rs := [r] + tail;
    forall x ensures NeedsSource(k', org, x) <==>
                     NeedsSource(k, org, x) && !(row.sourceType == x.sourceType && row.externalId == x.connector)
             ensures NameTaken(k', org, SourceName(x.connector)) <==>
                     NameTaken(k, org, SourceName(x.connector)) || row.name == SourceName(x.connector)
    {
      NeedsSourceAfter(k, k', org, row, x);
    }
    assert r in rs && forall x | x in tail :: x in rs;
    if Compatible(k', org, tail) {
      forall x | x in tail && NeedsSource(k, org, x)
        ensures !NameTaken(k, org, SourceName(x.connector))
        ensures SourceName(x.connector) == SourceName(r.connector) ==>
                  x.sourceType == r.sourceType && x.connector == r.connector
      {
        assert NeedsSource(k', org, x) || x.connector == r.connector;
      }
    }
  }

  lemma CompatibleAfterKnownSource(k: Tables, k': Tables, org: Id, r: Record, tail: seq<Record>)
    requires |r.hash| == HASH_LENGTH && !NeedsSource(k, org, r) && k'.sources == k.sources
    ensures Compatible(k, org, [r] + tail) <==> Compatible(k', org, tail)
  {
  }

  lemma CompatibleHead(k: Tables, org: Id, r: Record, tail: seq<Record>)
    requires Inv(k) && Ingested(k, org, r).Ok?
    ensures Compatible(k, org, [r] + tail) <==> Compatible(Ingested(k, org, r).value.0, org, tail)
  {
    var k' := Ingested(k, org, r).value.0;
    IngestSucceedsIff(k, org, r);
    SourcesAfter(k, org, r);
    if NeedsSource(k, org, r) {
      CompatibleAfterNewSource(k, k', org, r, tail);
    } else {
      CompatibleAfterKnownSource(k, k', org, r, tail);
    }
  }

  /** A batch succeeds exactly when it is compatible with the stored sources. */
  lemma {:induction false} BatchSucceedsIff(k: Tables, org: Id, rs: seq<Record>)
    requires Inv(k)
    ensures IngestedAll(k, org, rs).Ok? <==> Compatible(k, org, rs)
    decreases |rs|
  {
    if rs != [] {
      assert rs == [rs[0]] + rs[1..];
      IngestSucceedsIff(k, org, rs[0]);
      if Ingested(k, org, rs[0]).Ok? {
        CompatibleHead(k, org, rs[0], rs[1..]);
        IngestKeepsInvariant(k, org, rs[0]);
        BatchSucceedsIff(Ingested(k, org, rs[0]).value.0, org, rs[1..]);
      }
    }
  }

  lemma CompatibleByContent(k: Tables, org: Id, rs: seq<Record>, ts: seq<Record>)
    requires Elements(rs) == Elements(ts) && Compatible(k, org, rs)
    ensures Compatible(k, org, ts)
  {
    forall r | r in ts ensures r in rs {
      assert r in Elements(ts);
    }
  }

  lemma AbsorbAlike(k: Tables, a: Tables, b: Tables, org: Id, rs: seq<Record>, ts: seq<Record>, m: nat, n: nat, other: Id)
    requires Elements(rs) == Elements(ts)
    requires Absorbed(k, a, org, rs, m, other) && Absorbed(k, b, org, ts, n, other)
    ensures Holdings(a, other) == Holdings(b, other)
  {
    forall p ensures p in PairsOf(rs) <==> p in PairsOf(ts) {
      if p in PairsOf(rs) {
        var r :| r in rs && PairOf(r) == p;
        assert r in Elements(ts);
      }
      if p in PairsOf(ts) {
        var r :| r in ts && PairOf(r) == p;
        assert r in Elements(rs);
      }
    }
  }

  /** The order of the input decides neither success nor what is held afterwards. */
  lemma BatchIgnoresOrder(k: Tables, org: Id, rs: seq<Record>, ts: seq<Record>, other: Id)
    requires Inv(k) && Elements(rs) == Elements(ts)
    ensures IngestedAll(k, org, rs).Ok? <==> IngestedAll(k, org, ts).Ok?
    ensures IngestedAll(k, org, rs).Ok? ==>
              var a, b := IngestedAll(k, org, rs).value.0, IngestedAll(k, org, ts).value.0;
              Inv(a) && Inv(b) && Holdings(a, other) == Holdings(b, other)
  {
    BatchSucceedsIff(k, org, rs);
    BatchSucceedsIff(k, org, ts);
    if IngestedAll(k, org, rs).Ok? || IngestedAll(k, org, ts).Ok? {
      if Compatible(k, org, rs) { CompatibleByContent(k, org, rs, ts); } else { CompatibleByContent(k, org, ts, rs); }
      BatchIsUnion(k, org, rs, other);
      BatchIsUnion(k, org, ts, other);
      var (a, m) := IngestedAll(k, org, rs).value;
      var (b, n) := IngestedAll(k, org, ts).value;
      AbsorbAlike(k, a, b, org, rs, ts, m, n, other);
    }
  }

  // ---- running it again

  /** The record's source, document and version are found by the lookups. */
  ghost predicate Stored(k: Tables, org: Id, r: Record) {
    var s := FindSource(k, org, r.sourceType, r.connector);
    && s.Some?
    && var d := FindDocument(k, org, s.value, r.externalId);
    && d.Some?
    && HasHash(k, org, d.value, r.hash)
  }

  lemma StoredPersists(k: Tables, k': Tables, org: Id, r: Record)
    requires Extends(k, k') && Stored(k, org, r)
    ensures Stored(k', org, r)
  {
  }

  lemma FirstIndexUnique<T>(s: seq<T>, p: T -> bool, i: nat)
    requires i < |s| && p(s[i]) && forall j | 0 <= j < i :: !p(s[j])
    ensures FirstIndex(s, p) == Some(i)
  {
  }

  lemma IngestStores(k: Tables, org: Id, r: Record)
    requires Inv(k) && Ingested(k, org, r).Ok?
    ensures Stored(Ingested(k, org, r).value.0, org, r)
  {
    hide Inv, Constrained, Numbered, Cited;
    SourceKeeps(k, org, r);
    var (k1, source) := WithSource(k, org, r).value;
    DocumentKeeps(k1, org, source, r);
    var (k2, document, isNew) := WithDocument(k1, org, source, r).value;
    var k' := Ingested(k, org, r).value.0;
    assert FindSource(k', org, r.sourceType, r.connector) == Some(source) by {
      FirstIndexUnique(
        k'.sources, (s: Source) => s.org == org && s.sourceType == r.sourceType && s.externalId == r.connector, source);
    }
    assert FindDocument(k', org, source, r.externalId) == Some(document) by {
      FirstIndexUnique(
        k'.documents, (d: Document) => d.org == org && d.source == source && d.externalId == r.externalId, document);
    }
    if !HasHash(k2, org, document, r.hash) {
      var v := k'.versions[|k.versions|];
      assert v in k'.versions;
    }
  }

  lemma {:induction false} BatchStores(k: Tables, org: Id, rs: seq<Record>)
    requires Inv(k) && IngestedAll(k, org, rs).Ok?
    ensures forall r | r in rs :: Stored(IngestedAll(k, org, rs).value.0, org, r)
    decreases |rs|
  {
    if rs != [] {
      BatchHead(k, org, rs);
      var k1 := Ingested(k, org, rs[0]).value.0;
      var k' := IngestedAll(k, org, rs).value.0;
      IngestKeepsInvariant(k, org, rs[0]);
      IngestStores(k, org, rs[0]);
      BatchStores(k1, org, rs[1..]);
      BatchIsUnion(k1, org, rs[1..], org);
      assert Extends(k1, k');
      StoredPersists(k1, k', org, rs[0]);
      forall r | r in rs ensures Stored(k', org, r) {
        assert r == rs[0] || r in rs[1..];
      }
    }
  }

  ghost predicate OnlyJobsAdded(k: Tables, k': Tables, count: nat) {
    && k'.(jobs := k.jobs) == k && k.jobs <= k'.jobs && |k'.jobs| == |k.jobs| + count
    && forall j | j in k'.jobs[|k.jobs|..] :: j.status.DuplicateJob?
  }

  lemma StoredIsSkipped(k: Tables, org: Id, r: Record)
    requires Stored(k, org, r)
    ensures Ingested(k, org, r).Ok? && Ingested(k, org, r).value.1.Duplicate?
    ensures OnlyJobsAdded(k, Ingested(k, org, r).value.0, 1)
  {
  }

  lemma OnlyJobsAddUp(k: Tables, k1: Tables, k': Tables, m: nat, n: nat)
    requires OnlyJobsAdded(k, k1, m) && OnlyJobsAdded(k1, k', n)
    ensures OnlyJobsAdded(k, k', m + n)
  {
    assert k'.jobs[|k.jobs|..] == k1.jobs[|k.jobs|..] + k'.jobs[|k1.jobs|..];
  }

  lemma OnlyJobsExtend(k: Tables, k': Tables, count: nat)
    requires OnlyJobsAdded(k, k', count)
    ensures Extends(k, k')
  {
  }

  lemma {:induction false} StoredBatchIsSkipped(k: Tables, org: Id, rs: seq<Record>)
    requires forall r | r in rs :: Stored(k, org, r)
    ensures IngestedAll(k, org, rs).Ok?
    ensures IngestedAll(k, org, rs).value.1 == 0
    ensures OnlyJobsAdded(k, IngestedAll(k, org, rs).value.0, |rs|)
    decreases |rs|
  {
    if rs != [] {
      hide Ingested, Stored, OnlyJobsAdded, Extends;
      assert rs[0] in rs;
      StoredIsSkipped(k, org, rs[0]);
      var k1 := Ingested(k, org, rs[0]).value.0;
      OnlyJobsExtend(k, k1, 1);
      forall r | r in rs[1..] ensures Stored(k1, org, r) {
        StoredPersists(k, k1, org, r);
      }
      StoredBatchIsSkipped(k1, org, rs[1..]);
      OnlyJobsAddUp(k, k1, IngestedAll(k, org, rs).value.0, 1, |rs| - 1);
    }
  }

  /** A rerun of a successful batch succeeds, creates nothing and skips every record:
      it leaves one duplicate job each and no other trace. */
  lemma RerunAddsNothing(k: Tables, org: Id, rs: seq<Record>)
    requires Inv(k) && IngestedAll(k, org, rs).Ok?
    ensures var k' := IngestedAll(k, org, rs).value.0;
            && IngestedAll(k', org, rs).Ok?
            && IngestedAll(k', org, rs).value.1 == 0
            && OnlyJobsAdded(k', IngestedAll(k', org, rs).value.0, |rs|)
  {
    BatchStores(k, org, rs);
    StoredBatchIsSkipped(IngestedAll(k, org, rs).value.0, org, rs);
  }

  /** One connector emitting two source types collides on the source name: the
      second type is rejected whatever the order. */
  lemma TwoSourceTypesCollide(org: Id, r: Record, r': Record)
    requires r.connector == r'.connector && r.sourceType != r'.sourceType
    ensures IngestedAll(EMPTY, org, [r, r']).Err?
    ensures IngestedAll(EMPTY, org, [r', r]).Err?
  {
    EmptyTablesSatisfyInvariant();
    BatchSucceedsIff(EMPTY, org, [r, r']);
    BatchSucceedsIff(EMPTY, org, [r', r]);
    assert r in [r, r'] && r' in [r, r'] && r in [r', r] && r' in [r', r];
    assert NeedsSource(EMPTY, org, r) && NeedsSource(EMPTY, org, r');
  }

  // ---- the same on empty tables, in the caller's terms

  /** Sources are named after their connector, and a missing connector reads "None". */
  lemma NamesCoincideIff(a: Option<string>, b: Option<string>)
    ensures SourceName(a) == SourceName(b) <==> a == b || {a, b} == {None, Some("None")}
  {
    assert forall c: Option<string> ::
        SourceName(c)[11..] == match c case None => "None" case Some(n) => n;
  }

  /** Empty tables have no source, so every record needs one and every name is free. */
  lemma FreshCompatibleIff(org: Id, rs: seq<Record>)
    ensures Compatible(EMPTY, org, rs) <==>
            && (forall r | r in rs :: |r.hash| == HASH_LENGTH)
            && (forall r, r' | r in rs && r' in rs && SourceName(r.connector) == SourceName(r'.connector) ::
                  r.sourceType == r'.sourceType && r.connector == r'.connector)
  {
    hide SourceName;
    assert forall r :: NeedsSource(EMPTY, org, r) && !NameTaken(EMPTY, org, SourceName(r.connector));
    hide NeedsSource, NameTaken;
  }

  /** On empty tables a batch succeeds exactly when every hash has 64 characters, no connector
      emits two source types, and a missing connector does not meet one called "None". */
  lemma FreshBatchSucceedsIff(org: Id, rs: seq<Record>)
    ensures IngestedAll(EMPTY, org, rs).Ok? <==>
            && (forall r | r in rs :: |r.hash| == 64)
            && (forall r, r' | r in rs && r' in rs && r.connector == r'.connector :: r.sourceType == r'.sourceType)
            && !exists r, r' :: r in rs && r' in rs && r.connector.None? && r'.connector == Some("None")
  {
    EmptyTablesSatisfyInvariant();
    BatchSucceedsIff(EMPTY, org, rs);
    FreshCompatibleIff(org, rs);
    forall r, r' | r in rs && r' in rs
      ensures SourceName(r.connector) == SourceName(r'.connector)
              <==> r.connector == r'.connector || {r.connector, r'.connector} == {None, Some("None")}
    {
      NamesCoincideIff(r.connector, r'.connector);
    }
    hide SourceName, IngestedAll, Compatible;
  }

  // ---- the rows one ingestion stores

  function SourceRow(org: Id, r: Record): Source {
    Source(org, r.sourceType, "Connector: " + (if r.connector.Some? then r.connector.value else "None"), r.connector)
  }

  predicate Emits(s: Source, org: Id, r: Record) {
    s.org == org && s.sourceType == r.sourceType && s.externalId == r.connector
  }

  predicate Carries(d: Document, org: Id, source: nat, r: Record) {
    d.org == org && d.source == source && d.externalId == r.externalId
  }

  lemma SourceStored(k: Tables, org: Id, r: Record)
    requires WithSource(k, org, r).Ok?
    ensures var (k1, source) := WithSource(k, org, r).value;
            && source < |k1.sources| && Emits(k1.sources[source], org, r)
            && k1 == k.(sources := k.sources
                                   + (if exists s :: s in k.sources && Emits(s, org, r) then [] else [SourceRow(org, r)]))
  {
    assert k.sources + [] == k.sources;
    match FindSource(k, org, r.sourceType, r.connector)
    case Some(i) => assert k.sources[i] in k.sources && Emits(k.sources[i], org, r);
    case None => assert forall s | s in k.sources :: !Emits(s, org, r);
  }

  lemma DocumentStored(k: Tables, org: Id, source: nat, r: Record)
    requires WithDocument(k, org, source, r).Ok?
    ensures var (k1, document, isNew) := WithDocument(k, org, source, r).value;
            && document < |k1.documents| && Carries(k1.documents[document], org, source, r)
            && k1 == k.(documents := k.documents + (if isNew then [Document(org, source, r.externalId, r.details)] else []))
            && (isNew <==> forall d | d in k.documents :: !Carries(d, org, source, r))
  {
    assert k.documents + [] == k.documents;
    match FindDocument(k, org, source, r.externalId)
    case Some(i) => assert k.documents[i] in k.documents && Carries(k.documents[i], org, source, r);
    case None => assert forall d | d in k.documents :: !Carries(d, org, source, r);
  }

  /** What is stored under a document for one record, given whether it was held already. */
  ghost predicate RowsStored(k: Tables, k': Tables, org: Id, source: nat, document: nat, r: Record, duplicate: bool) {
    if duplicate then
      && k'.versions == k.versions && k'.citations == k.citations
      && k'.jobs == k.jobs + [Job(org, source, document, DuplicateJob, r.hash)]
    else
      var number := |VersionsOf(k.versions, document)| + 1;
      && k'.versions == k.versions + [Version(org, document, number, r.hash, r.details)]
      && k'.citations == k.citations + [Citation(org, source, document, |k.versions|, number, r.hash, r.details)]
      && k'.jobs == k.jobs + [Job(org, source, document, SucceededJob, r.hash)]
  }

  lemma VersionStored(k: Tables, org: Id, source: nat, document: nat, r: Record)
    requires Inv(k) && document < |k.documents| && k.documents[document].org == org && !HasHash(k, org, document, r.hash)
    requires WithVersion(k, org, source, document, r).Ok?
    ensures var k1 := WithVersion(k, org, source, document, r).value;
            RowsStored(k, k1, org, source, document, r, false) && k1.sources == k.sources && k1.documents == k.documents
  {
    NextVersionAdmissible(k, org, document, r);
    hide Inv, HasHash, VersionsOf, MaxVersion, VersionAdmissible;
  }

  /** Every row after one ingestion: at most one source and one document, and either a
      duplicate job alone or the document's next version with its citation and job. */
  lemma IngestRows(k: Tables, org: Id, r: Record) returns (source: nat, document: nat)
    requires Inv(k) && Ingested(k, org, r).Ok?
    ensures var (k', status) := Ingested(k, org, r).value;
            && source < |k'.sources| && Emits(k'.sources[source], org, r)
            && k'.sources == k.sources
                 + (if exists s :: s in k.sources && Emits(s, org, r) then [] else [SourceRow(org, r)])
            && document < |k'.documents| && Carries(k'.documents[document], org, source, r)
            && k'.documents == k.documents
                 + (if status.Created? then [Document(org, source, r.externalId, r.details)] else [])
            && (status.Created? <==> forall d | d in k.documents :: !Carries(d, org, source, r))
            && (status.Duplicate? <==>
                  exists v :: v in k.versions && v.org == org && v.document == document && v.hash == r.hash)
            && RowsStored(k, k', org, source, document, r, status.Duplicate?)
  {
    SourceKeeps(k, org, r);
    SourceStored(k, org, r);
    var (k1, s) := WithSource(k, org, r).value;
    DocumentKeeps(k1, org, s, r);
    DocumentStored(k1, org, s, r);
    var (k2, d, isNew) := WithDocument(k1, org, s, r).value;
    source, document := s, d;
    if !HasHash(k2, org, d, r.hash) && WithVersion(k2, org, s, d, r).Ok? {
      VersionStored(k2, org, s, d, r);
    }
    hide Inv, VersionsOf, WithSource, WithDocument, WithVersion, Emits, Carries, SourceRow;
  }
}
