/** The model registry: snapshot construction, the checks behind it, lookup and
    selectability. `details` stands for descriptive fields nothing here reads. */
module Registry {
  import opened Common
  import opened Sorting

  datatype Status = Active | Disabled | Deprecated

  datatype Capability =
    | AudioInput | AudioOutput | Code | Embedding | ImageGeneration | LongContext
    | Reasoning | StructuredOutput | TextGeneration | ToolUse | Vision

  /** All capabilities in the order of their text, by which they are compared. */
  const CAPABILITIES: seq<Capability> := [
    AudioInput, AudioOutput, Code, Embedding, ImageGeneration, LongContext, Reasoning, StructuredOutput,
    TextGeneration, ToolUse, Vision]

  function CapabilityRank(c: Capability): (k: nat)
    ensures k < |CAPABILITIES| && CAPABILITIES[k] == c
  {
    match c
    case AudioInput => 0
    case AudioOutput => 1
    case Code => 2
    case Embedding => 3
    case ImageGeneration => 4
    case LongContext => 5
    case Reasoning => 6
    case StructuredOutput => 7
    case TextGeneration => 8
    case ToolUse => 9
    case Vision => 10
  }

  function CapabilityText(c: Capability): string {
    match c
    case AudioInput => "audio_input"
    case AudioOutput => "audio_output"
    case Code => "code"
    case Embedding => "embedding"
    case ImageGeneration => "image_generation"
    case LongContext => "long_context"
    case Reasoning => "reasoning"
    case StructuredOutput => "structured_output"
    case TextGeneration => "text_generation"
    case ToolUse => "tool_use"
    case Vision => "vision"
  }

  /** Where the text of each capability first differs from the one before it. */
  const CAPABILITY_DIFFERENCES: seq<nat> := [0, 6, 0, 0, 0, 0, 0, 0, 0, 1, 0]

  lemma EarlyCapabilitiesAscend(k: nat)
    requires 0 < k < 6
    ensures AscendsAt(CapabilityText(CAPABILITIES[k - 1]), CapabilityText(CAPABILITIES[k]), CAPABILITY_DIFFERENCES[k])
  {
  }

  lemma LateCapabilitiesAscend(k: nat)
    requires 6 <= k < |CAPABILITIES|
    ensures AscendsAt(CapabilityText(CAPABILITIES[k - 1]), CapabilityText(CAPABILITIES[k]), CAPABILITY_DIFFERENCES[k])
  {
  }

  /** The canonical order of capabilities is the order of their text. */
  lemma CapabilitiesFollowText(a: Capability, b: Capability)
    ensures CapabilityRank(a) <= CapabilityRank(b) <==> StringLe(CapabilityText(a), CapabilityText(b))
  {
    hide CapabilityText, CapabilityRank;
    var texts := seq(|CAPABILITIES|, i requires 0 <= i < |CAPABILITIES| => CapabilityText(CAPABILITIES[i]));
    forall k | 0 < k < |CAPABILITIES| ensures AscendsAt(texts[k - 1], texts[k], CAPABILITY_DIFFERENCES[k]) {
      if k < 6 { EarlyCapabilitiesAscend(k); } else { LateCapabilitiesAscend(k); }
    }
    PositionsFollowTexts(texts, CAPABILITY_DIFFERENCES, CapabilityRank(a), CapabilityRank(b));
  }

  /** Equal to its own sorted set: strictly ascending. */
  predicate CanonicalCapabilities(cs: seq<Capability>) {
    forall i, j | 0 <= i < j < |cs| :: CapabilityRank(cs[i]) < CapabilityRank(cs[j])
  }

  datatype Provider = Provider(id: string, family: string, status: Status, capabilities: seq<Capability>, details: string)

  datatype Model = Model(
    id: string, provider: string, name: string, version: string, revision: string,
    status: Status, capabilities: seq<Capability>, details: string)

  datatype Snapshot = Snapshot(
    registryId: Id, revision: nat, providers: seq<Provider>, models: seq<Model>, createdAt: int)

  datatype Error =
    | LimitExceeded | DuplicateProvider | DuplicateModel | UnknownProvider | CapabilityExceeded | OutOfOrder
    | ProviderNotFound | ModelNotFound | CapabilitiesNotCanonical
    | ProviderInactive | ModelInactive | CapabilityMissing

  const MAX_PROVIDERS := 100
  const MAX_MODELS := 1000

  function ProviderIds(ps: seq<Provider>): (r: seq<string>)
    ensures |r| == |ps| && forall i | 0 <= i < |r| :: r[i] == ps[i].id
  {
    MapSeq((p: Provider) => p.id, ps)
  }

  function ModelIds(ms: seq<Model>): (r: seq<string>)
    ensures |r| == |ms| && forall i | 0 <= i < |r| :: r[i] == ms[i].id
  {
    MapSeq((m: Model) => m.id, ms)
  }

  /** What must be unique about a model besides its identity. */
  datatype Key = Key(provider: string, name: string, version: string, revision: string)

  function KeyOf(m: Model): Key {
    Key(m.provider, m.name, m.version, m.revision)
  }

  /** The first item with the given identity. */
  function FindProvider(ps: seq<Provider>, id: string): (r: Option<Provider>)
    ensures r.Some? ==> r.value in ps && r.value.id == id
    ensures r.None? ==> forall p | p in ps :: p.id != id
  {
    if ps == [] then None else if ps[0].id == id then Some(ps[0]) else FindProvider(ps[1..], id)
  }

  function FindModel(ms: seq<Model>, id: string): (r: Option<Model>)
    ensures r.Some? ==> r.value in ms && r.value.id == id
    ensures r.None? ==> forall m | m in ms :: m.id != id
  {
    if ms == [] then None else if ms[0].id == id then Some(ms[0]) else FindModel(ms[1..], id)
  }

  predicate Within(cs: seq<Capability>, all: seq<Capability>) {
    forall c | c in cs :: c in all
  }

  // ---- entries

  function KeysOf(ms: seq<Model>): set<Key> {
    set m | m in ms :: KeyOf(m)
  }

  /** The check of one model after the ones before it. */
  function CheckModel(ps: seq<Provider>, seen: set<Key>, m: Model): Outcome<Error> {
    match FindProvider(ps, m.provider)
    case None => Fail(UnknownProvider)
    case Some(p) =>
      if KeyOf(m) in seen then Fail(DuplicateModel)
      else if !Within(m.capabilities, p.capabilities) then Fail(CapabilityExceeded)
      else Pass
  }

  function CheckModels(ps: seq<Provider>, ms: seq<Model>): Outcome<Error> {
    if ms == [] then Pass
    else
      var n := |ms| - 1;
      match CheckModels(ps, ms[..n])
      case Fail(e) => Fail(e)
      case Pass => CheckModel(ps, KeysOf(ms[..n]), ms[n])
  }

  function CheckEntries(ps: seq<Provider>, ms: seq<Model>): Outcome<Error> {
    if !Distinct(ProviderIds(ps)) then Fail(DuplicateProvider)
    else if !Distinct(ModelIds(ms)) then Fail(DuplicateModel)
    else CheckModels(ps, ms)
  }

  method ValidateEntries(ps: seq<Provider>, ms: seq<Model>) returns (outcome: Outcome<Error>)
    ensures outcome == CheckEntries(ps, ms)
  {
    if !Distinct(ProviderIds(ps)) {
      return Fail(DuplicateProvider);
    }
    if !Distinct(ModelIds(ms)) {
      return Fail(DuplicateModel);
    }
    hide FindProvider, Within, Distinct, ProviderIds, ModelIds;
    var keys := {};
    for i := 0 to |ms|
      invariant CheckModels(ps, ms[..i]).Pass?
      invariant keys == KeysOf(ms[..i])
    {
      var m := ms[i];
      assert ms[..i + 1][..i] == ms[..i];
      FailuresPersist(ps, ms, i + 1);
      var provider := FindProvider(ps, m.provider);
      if provider.None? {
        return Fail(UnknownProvider);
      }
      if KeyOf(m) in keys {
        return Fail(DuplicateModel);
      }
      if !Within(m.capabilities, provider.value.capabilities) {
        return Fail(CapabilityExceeded);
      }
      keys := keys + {KeyOf(m)};
    }
    assert ms[..|ms|] == ms;
    return Pass;
  }

  /** The first failing model decides the outcome. */
  lemma {:induction false} FailuresPersist(ps: seq<Provider>, ms: seq<Model>, n: nat)
    requires n <= |ms|
    ensures CheckModels(ps, ms[..n]).Fail? ==> CheckModels(ps, ms) == CheckModels(ps, ms[..n])
  {
    if n == |ms| {
      assert ms[..n] == ms;
    } else {
      assert ms[..|ms| - 1][..n] == ms[..n];
      FailuresPersist(ps, ms[..|ms| - 1], n);
      hide CheckModel;
    }
  }

  /** The provider of a model is there and declares its capabilities. */
  predicate Supplied(ps: seq<Provider>, m: Model) {
    exists p :: p in ps && p.id == m.provider && Within(m.capabilities, p.capabilities)
  }

  /** What accepted entries have in common. */
  predicate Consistent(ps: seq<Provider>, ms: seq<Model>) {
    && Distinct(ProviderIds(ps))
    && Distinct(ModelIds(ms))
    && (forall m | m in ms :: Supplied(ps, m))
    && (forall i, j | 0 <= i < j < |ms| :: !SameRelease(ms[i], ms[j]))
  }

  /** One provider's release of one model: name, version and revision. */
  predicate SameRelease(a: Model, b: Model) {
    a.provider == b.provider && a.name == b.name && a.version == b.version && a.revision == b.revision
  }

  lemma {:induction false} UniqueProvider(ps: seq<Provider>, p: Provider)
    requires Distinct(ProviderIds(ps)) && p in ps
    ensures FindProvider(ps, p.id) == Some(p)
  {
  }

  lemma {:induction false} CheckModelsPassIff(ps: seq<Provider>, ms: seq<Model>)
    requires Distinct(ProviderIds(ps))
    ensures CheckModels(ps, ms).Pass? <==>
            && (forall m | m in ms :: Supplied(ps, m))
            && (forall i, j | 0 <= i < j < |ms| :: KeyOf(ms[i]) != KeyOf(ms[j]))
  {
    hide CheckModel, KeyOf, KeysOf, Supplied, Distinct, ProviderIds;
    if ms != [] {
      var n := |ms| - 1;
      assert ms == ms[..n] + [ms[n]];
      CheckModelsPassIff(ps, ms[..n]);
      CheckModelPassIff(ps, KeysOf(ms[..n]), ms[n]);
      KeysOfPrefix(ms, n, KeyOf(ms[n]));
    }
  }

  lemma KeysOfPrefix(ms: seq<Model>, n: nat, key: Key)
    requires n <= |ms|
    ensures key in KeysOf(ms[..n]) <==> exists i | 0 <= i < n :: KeyOf(ms[i]) == key
  {
    hide KeyOf;
    assert forall i | 0 <= i < n :: ms[..n][i] == ms[i];
  }

  lemma CheckModelPassIff(ps: seq<Provider>, seen: set<Key>, m: Model)
    requires Distinct(ProviderIds(ps))
    ensures CheckModel(ps, seen, m).Pass? <==>
            Supplied(ps, m) && KeyOf(m) !in seen
  {
  }

  lemma CheckEntriesPassIff(ps: seq<Provider>, ms: seq<Model>)
    ensures CheckEntries(ps, ms).Pass? <==> Consistent(ps, ms)
  {
    if Distinct(ProviderIds(ps)) {
      CheckModelsPassIff(ps, ms);
    }
    forall i, j | 0 <= i < j < |ms| ensures SameRelease(ms[i], ms[j]) <==> KeyOf(ms[i]) == KeyOf(ms[j]) { }
    hide Distinct, ProviderIds, ModelIds, Supplied, KeyOf, SameRelease;
  }

  /** One model more: the error is the first demand the new model misses, unless an earlier
      one failed already. */
  lemma ModelsGrowExactly(ps: seq<Provider>, ms: seq<Model>, m: Model)
    ensures CheckModels(ps, ms + [m]) ==
            CheckModels(ps, ms)
            .Check(FindProvider(ps, m.provider).Some?, UnknownProvider)
            .Check(forall other | other in ms :: !SameRelease(other, m), DuplicateModel)
            .Check(FindProvider(ps, m.provider).Some?
                   && forall c | c in m.capabilities :: c in FindProvider(ps, m.provider).value.capabilities,
                   CapabilityExceeded)
  {
    hide FindProvider;
    assert (ms + [m])[..|ms|] == ms;
    assert KeyOf(m) in KeysOf(ms) <==> !forall other | other in ms :: !SameRelease(other, m) by {
      forall other ensures SameRelease(other, m) <==> KeyOf(other) == KeyOf(m) { }
      hide KeyOf, SameRelease;
    }
    hide KeysOf, SameRelease, KeyOf;
  }

  /** Repeated identities come before everything else, providers first. */
  lemma EntriesAreExact(ps: seq<Provider>, ms: seq<Model>)
    ensures var ids := Outcome<Error>.Pass
              .Check(Distinct(ProviderIds(ps)), DuplicateProvider)
              .Check(Distinct(ModelIds(ms)), DuplicateModel);
            CheckEntries(ps, ms) == if ids.Fail? then ids else CheckModels(ps, ms)
  {
    hide Distinct, ProviderIds, ModelIds, CheckModels;
  }

  // ---- snapshots

  predicate ProviderLe(a: Provider, b: Provider) {
    StringLe(a.id, b.id)
  }

  predicate ModelLe(a: Model, b: Model) {
    StringLe(a.id, b.id)
  }

  /** The snapshot's own validator. */
  function CheckSnapshot(s: Snapshot): Outcome<Error> {
    if |s.providers| > MAX_PROVIDERS || |s.models| > MAX_MODELS then Fail(LimitExceeded)
    else if ProviderIds(s.providers) != Sort(StringLe, ProviderIds(s.providers)) then Fail(OutOfOrder)
    else if ModelIds(s.models) != Sort(StringLe, ModelIds(s.models)) then Fail(OutOfOrder)
    else CheckEntries(s.providers, s.models)
  }

  function CreateSnapshot(registryId: Id, revision: nat, ps: seq<Provider>, ms: seq<Model>, createdAt: int)
    : Result<Snapshot, Error>
  {
    var providers, models := Sort(ProviderLe, ps), Sort(ModelLe, ms);
    if |providers| > MAX_PROVIDERS || |models| > MAX_MODELS then Err(LimitExceeded)
    else
      match CheckEntries(providers, models)
      case Fail(e) => Err(e)
      case Pass =>
        var s := Snapshot(registryId, revision, providers, models, createdAt);
        match CheckSnapshot(s)
        case Fail(e) => Err(e)
        case Pass => Ok(s)
  }

  lemma EntryOrders()
    ensures TotalPreorder(ProviderLe) && TotalPreorder(ModelLe)
  {
    StringOrder();
    hide StringLe;
  }

  lemma SortedIds(ps: seq<Provider>, ms: seq<Model>)
    ensures ProviderIds(Sort(ProviderLe, ps)) == Sort(StringLe, ProviderIds(Sort(ProviderLe, ps)))
    ensures ModelIds(Sort(ModelLe, ms)) == Sort(StringLe, ModelIds(Sort(ModelLe, ms)))
  {
    EntryOrders();
    SortSorted(ProviderLe, ps);
    SortSorted(ModelLe, ms);
    var sp, sm := Sort(ProviderLe, ps), Sort(ModelLe, ms);
    hide StringLe, Sort;
    assert forall i, j | 0 <= i < j < |sp| :: ProviderLe(sp[i], sp[j]);
    assert forall i, j | 0 <= i < j < |sm| :: ModelLe(sm[i], sm[j]);
    SortedIsFixed(StringLe, ProviderIds(sp));
    SortedIsFixed(StringLe, ModelIds(sm));
  }

  lemma ProviderTiesAreEqual(ps: seq<Provider>)
    requires Distinct(ProviderIds(ps))
    ensures TieFree(ProviderLe, ps)
  {
    StringOrder();
    forall a, b | a in ps && b in ps && ProviderLe(a, b) && ProviderLe(b, a) ensures a == b {
      UniqueProvider(ps, a);
      UniqueProvider(ps, b);
    }
  }

  lemma ModelTiesAreEqual(ms: seq<Model>)
    requires Distinct(ModelIds(ms))
    ensures TieFree(ModelLe, ms)
  {
    StringOrder();
    forall a, b | a in ms && b in ms && ModelLe(a, b) && ModelLe(b, a) ensures a == b {
      var i :| 0 <= i < |ms| && ms[i] == a;
      var j :| 0 <= j < |ms| && ms[j] == b;
      assert ModelIds(ms)[i] == ModelIds(ms)[j];
    }
  }

  /** Construction, its errors included, does not depend on the order of its inputs. */
  lemma SnapshotIgnoresOrder(registryId: Id, revision: nat, ps: seq<Provider>, ms: seq<Model>, qs: seq<Provider>,
                             ns: seq<Model>, createdAt: int)
    requires multiset(ps) == multiset(qs) && multiset(ms) == multiset(ns)
    ensures CreateSnapshot(registryId, revision, ps, ms, createdAt)
            == CreateSnapshot(registryId, revision, qs, ns, createdAt)
  {
    hide Distinct, ProviderIds, ModelIds, CheckModels, CheckSnapshot, ProviderLe, ModelLe, Sort;
    SortKeepsDuplicates(ps, ms);
    SortKeepsDuplicates(qs, ns);
    ProviderIdsPermute(ps, qs);
    ProviderIdsPermute(qs, ps);
    ModelIdsPermute(ms, ns);
    ModelIdsPermute(ns, ms);
    EntryOrders();
    SameElements(ps, qs);
    SameElements(ms, ns);
    if Distinct(ProviderIds(ps)) && Distinct(ModelIds(ms)) {
      ProviderTiesAreEqual(ps);
      PermutationSortsAlike(ProviderLe, ps, qs);
      ModelTiesAreEqual(ms);
      PermutationSortsAlike(ModelLe, ms, ns);
    }
  }

  lemma ProviderIdsPermute(s: seq<Provider>, t: seq<Provider>)
    requires multiset(s) == multiset(t)
    ensures Distinct(ProviderIds(s)) ==> Distinct(ProviderIds(t))
  {
    if Distinct(ProviderIds(s)) {
      var f := (p: Provider) => p.id;
      assert MapSeq(f, s) == ProviderIds(s) && MapSeq(f, t) == ProviderIds(t);
      DistinctImagesPermute(f, s, t);
    }
  }

  lemma ModelIdsPermute(s: seq<Model>, t: seq<Model>)
    requires multiset(s) == multiset(t)
    ensures Distinct(ModelIds(s)) ==> Distinct(ModelIds(t))
  {
    if Distinct(ModelIds(s)) {
      var f := (m: Model) => m.id;
      assert MapSeq(f, s) == ModelIds(s) && MapSeq(f, t) == ModelIds(t);
      DistinctImagesPermute(f, s, t);
    }
  }

  lemma SortKeepsDuplicates(ps: seq<Provider>, ms: seq<Model>)
    ensures Distinct(ProviderIds(Sort(ProviderLe, ps))) <==> Distinct(ProviderIds(ps))
    ensures Distinct(ModelIds(Sort(ModelLe, ms))) <==> Distinct(ModelIds(ms))
  {
    ProviderIdsPermute(ps, Sort(ProviderLe, ps));
    ProviderIdsPermute(Sort(ProviderLe, ps), ps);
    ModelIdsPermute(ms, Sort(ModelLe, ms));
    ModelIdsPermute(Sort(ModelLe, ms), ms);
  }

  /** Consistency looks at the entries, not at their order. */
  lemma ConsistencyPermutes(ps: seq<Provider>, ms: seq<Model>, qs: seq<Provider>, ns: seq<Model>)
    requires multiset(ps) == multiset(qs) && multiset(ms) == multiset(ns) && Consistent(ps, ms)
    ensures Consistent(qs, ns)
  {
    SameElements(ps, qs);
    SameElements(ms, ns);
    ProviderIdsPermute(ps, qs);
    ModelIdsPermute(ms, ns);
    hide ProviderIds;
    forall i, j | 0 <= i < j < |ns| ensures !SameRelease(ns[i], ns[j]) {
      assert ns[i] in ms && ns[j] in ms;
      var k :| 0 <= k < |ms| && ms[k] == ns[i];
      var l :| 0 <= l < |ms| && ms[l] == ns[j];
      assert ModelIds(ns)[i] != ModelIds(ns)[j];
    }
    hide Distinct, ModelIds, SameRelease, Within;
  }

  /** Construction succeeds exactly for consistent entries within the limits; then the
      snapshot holds the entries given, in the order of their identities, and passes its
      own validator. */
  lemma SnapshotSucceedsIff(registryId: Id, revision: nat, ps: seq<Provider>, ms: seq<Model>, createdAt: int)
    ensures var r := CreateSnapshot(registryId, revision, ps, ms, createdAt);
            && (r.Ok? <==> |ps| <= 100 && |ms| <= 1000 && Consistent(ps, ms))
            && (|ps| > 100 || |ms| > 1000 ==> r == Err(LimitExceeded))
            && (|ps| <= 100 && |ms| <= 1000 && r.Err? ==>
                  CheckEntries(Sort(ProviderLe, ps), Sort(ModelLe, ms)) == Fail(r.error))
            && (r.Ok? ==> && CheckSnapshot(r.value).Pass?
                          && multiset(r.value.providers) == multiset(ps) && multiset(r.value.models) == multiset(ms)
                          && Sorted(ProviderLe, r.value.providers) && Sorted(ModelLe, r.value.models))
  {
    hide Sort, ProviderLe, ModelLe, CheckEntries, Consistent, ProviderIds, ModelIds, Sorted;
    var sp, sm := Sort(ProviderLe, ps), Sort(ModelLe, ms);
    SortedIds(ps, ms);
    EntryOrders();
    SortSorted(ProviderLe, ps);
    SortSorted(ModelLe, ms);
    CheckEntriesPassIff(sp, sm);
    if Consistent(ps, ms) {
      ConsistencyPermutes(ps, ms, sp, sm);
    }
    if Consistent(sp, sm) {
      ConsistencyPermutes(sp, sm, ps, ms);
    }
  }

  /** The validator accepts exactly consistent entries within the limits whose identities stand
      in ascending order. */
  lemma SnapshotPassesIff(s: Snapshot)
    ensures CheckSnapshot(s).Pass? <==>
            && |s.providers| <= 100 && |s.models| <= 1000
            && (forall i, j | 0 <= i < j < |s.providers| :: StringLe(s.providers[i].id, s.providers[j].id))
            && (forall i, j | 0 <= i < j < |s.models| :: StringLe(s.models[i].id, s.models[j].id))
            && Consistent(s.providers, s.models)
  {
    hide Sort, StringLe, CheckEntries, Consistent;
    AscendingIff(ProviderIds(s.providers));
    AscendingIff(ModelIds(s.models));
    CheckEntriesPassIff(s.providers, s.models);
  }

  lemma AscendingIff(ids: seq<string>)
    ensures ids == Sort(StringLe, ids) <==> forall i, j | 0 <= i < j < |ids| :: StringLe(ids[i], ids[j])
  {
    hide Sort, StringLe;
    StringOrder();
    SortSorted(StringLe, ids);
    if forall i, j | 0 <= i < j < |ids| :: StringLe(ids[i], ids[j]) {
      SortedIsFixed(StringLe, ids);
    }
  }

  /** In a valid snapshot every model's provider resolves, to the one provider so named. */
  lemma NoDanglingProvider(s: Snapshot, m: Model)
    requires CheckSnapshot(s).Pass? && m in s.models
    ensures FindProvider(s.providers, m.provider).Some?
    ensures Within(m.capabilities, FindProvider(s.providers, m.provider).value.capabilities)
    ensures FindModel(s.models, m.id) == Some(m)
  {
    CheckEntriesPassIff(s.providers, s.models);
    assert Consistent(s.providers, s.models) by {
      hide CheckEntries, Consistent;
    }
    assert Supplied(s.providers, m);
    var p :| p in s.providers && p.id == m.provider && Within(m.capabilities, p.capabilities);
    UniqueProvider(s.providers, p);
    UniqueModel(s.models, m);
  }

  lemma UniqueModel(ms: seq<Model>, m: Model)
    requires Distinct(ModelIds(ms)) && m in ms
    ensures FindModel(ms, m.id) == Some(m)
  {
  }

  // ---- selectability

  function Selectable(s: Snapshot, modelId: string, required: seq<Capability>): Result<Model, Error> {
    match FindModel(s.models, modelId)
    case None => Err(ModelNotFound)
    case Some(m) =>
      match FindProvider(s.providers, m.provider)
      case None => Err(ProviderNotFound)
      case Some(p) =>
        if !p.status.Active? then Err(ProviderInactive)
        else if !m.status.Active? then Err(ModelInactive)
        else if required != [] && !CanonicalCapabilities(required) then Err(CapabilitiesNotCanonical)
        else if required != [] && !Within(required, m.capabilities) then Err(CapabilityMissing)
        else Ok(m)
  }

  /** The lookup with the error of the first demand missed: both must be found, the provider
      judged before the model, and capabilities only when some are asked for. */
  lemma SelectableIsExact(s: Snapshot, modelId: string, required: seq<Capability>)
    ensures var m := FindModel(s.models, modelId);
            var p := if m.Some? then FindProvider(s.providers, m.value.provider) else None;
            var outcome := Outcome<Error>.Pass
              .Check(m.Some?, ModelNotFound)
              .Check(p.Some?, ProviderNotFound)
              .Check(p.Some? && p.value.status == Active, ProviderInactive)
              .Check(m.Some? && m.value.status == Active, ModelInactive)
              .Check(forall i, j | 0 <= i < j < |required| :: CapabilityRank(required[i]) < CapabilityRank(required[j]),
                     CapabilitiesNotCanonical)
              .Check(m.Some? && forall c | c in required :: c in m.value.capabilities, CapabilityMissing);
            Selectable(s, modelId, required) == match outcome case Fail(e) => Err(e) case Pass => Ok(m.value)
  {
  }

  /** A model of a valid snapshot is selectable exactly when it and its provider are active
      and it, hence its provider too, declares every capability asked for. */
  lemma SelectableIff(s: Snapshot, m: Model, p: Provider, required: seq<Capability>)
    requires CheckSnapshot(s).Pass? && m in s.models && p in s.providers && p.id == m.provider
    ensures Selectable(s, m.id, required) == Ok(m) <==>
            m.status.Active? && p.status.Active? && CanonicalCapabilities(required) && Within(required, m.capabilities)
    ensures Selectable(s, m.id, required).Ok? ==> Within(required, p.capabilities)
  {
    NoDanglingProvider(s, m);
    assert Distinct(ProviderIds(s.providers)) by {
      hide Distinct, CheckModels, Sort;
    }
    UniqueProvider(s.providers, p);
    hide CheckSnapshot, FindProvider, FindModel, Distinct, ProviderIds;
    assert required == [] ==> CanonicalCapabilities(required) && Within(required, m.capabilities);
  }
}
