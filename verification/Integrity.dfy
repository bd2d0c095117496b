/** The evaluation integrity digest: which fields it binds, and that it binds them.
    SHA-256 stays abstract; what is proved is that its input is an injective encoding. */
module Integrity {
  import opened Common
  import opened Digits
  import opened Json
  import Calendar
  import Utf8

  // ---- identifiers

  type Uuid = u: seq<Nibble> | |u| == 32 witness seq(32, _ => 0)

  function Hex(ds: seq<Nibble>): (s: string)
    ensures |s| == |ds| && forall i | 0 <= i < |s| :: s[i] == HexDigit(ds[i])
  {
    MapSeq(HexDigit, ds)
  }

  function UuidText(u: Uuid): (s: string)
    ensures |s| == 36
  {
    Hex(u[0..8]) + "-" + Hex(u[8..12]) + "-" + Hex(u[12..16]) + "-" + Hex(u[16..20]) + "-" + Hex(u[20..32])
  }

  function Nibbles(s: string): (ds: seq<Nibble>)
    requires forall c | c in s :: IsHex(c)
    ensures |ds| == |s|
  {
    seq(|s|, i requires 0 <= i < |s| => HexValue(s[i]))
  }

  function UuidFromText(s: string): Option<Uuid> {
    if |s| != 36 then None
    else
      var digits := s[0..8] + s[9..13] + s[14..18] + s[19..23] + s[24..36];
      if forall c | c in digits :: IsHex(c) then Some(Nibbles(digits)) else None
  }

  lemma UuidRoundTrip(u: Uuid)
    ensures UuidFromText(UuidText(u)) == Some(u)
  {
    var s := UuidText(u);
    var digits := s[0..8] + s[9..13] + s[14..18] + s[19..23] + s[24..36];
    assert s[0..8] == Hex(u[0..8]) && s[9..13] == Hex(u[8..12]) && s[14..18] == Hex(u[12..16])
        && s[19..23] == Hex(u[16..20]) && s[24..36] == Hex(u[20..32]);
    forall i | 0 <= i < 32 ensures digits[i] == HexDigit(u[i]) && IsHex(digits[i]) && HexValue(digits[i]) == u[i] {
      HexRoundTrip(u[i]);
    }
    assert Nibbles(digits) == u;
  }

  /** Lower-case digits in groups of eight, four, four, four and twelve. */
  lemma UuidTextForm(u: Uuid, i: nat)
    requires i < 36
    ensures var digits := if i < 8 then 0 else if i < 13 then 1 else if i < 18 then 2 else if i < 23 then 3 else 4;
            UuidText(u)[i] == if i in {8, 13, 18, 23} then '-' else "0123456789abcdef"[u[i - digits]]
  {
  }

  // ---- the record

  datatype IntegrityRecord = IntegrityRecord(
    recordId: Uuid,
    runId: Uuid,
    definition: string,
    target: string,
    dataset: string,
    split: string,
    policy: string,
    evaluator: string,
    accessPlan: string,
    lineage: string,
    reproducibility: string,
    registry: Option<string>,
    manifest: Option<string>,
    revision: nat,
    createdAt: Calendar.Datetime)

  /** A field as the record holds it. */
  datatype Attribute = UuidAttr(u: Uuid) | TextAttr(s: string) | IntAttr(n: nat) | TimeAttr(t: Calendar.Datetime)

  const FIELDS: seq<string> := [
    "evaluation_run_id", "definition_digest_reference", "target_digest_reference", "dataset_digest_reference",
    "split_digest_reference", "policy_digest_reference", "evaluator_digest_reference",
    "access_plan_digest_reference", "lineage_digest", "reproducibility_digest_reference",
    "integrity_revision", "created_at"]

  function Attributes(r: IntegrityRecord): (a: seq<Attribute>)
    ensures |a| == |FIELDS|
  {
    [UuidAttr(r.runId), TextAttr(r.definition), TextAttr(r.target), TextAttr(r.dataset), TextAttr(r.split),
     TextAttr(r.policy), TextAttr(r.evaluator), TextAttr(r.accessPlan), TextAttr(r.lineage),
     TextAttr(r.reproducibility), IntAttr(r.revision), TimeAttr(r.createdAt)]
  }

  /** Identifiers and times become text; everything else is encoded as it is. */
  function Plain(a: Attribute): Value {
    match a
    case UuidAttr(u) => Str(UuidText(u))
    case TextAttr(s) => Str(s)
    case IntAttr(n) => Num(n)
    case TimeAttr(t) => Str(Calendar.Text(t))
  }

  /** The first n entries of the dictionary that is serialised. */
  function Entries(r: IntegrityRecord, n: nat): (ms: seq<Member>)
    requires n <= |FIELDS|
    ensures |ms| == n
  {
    seq(n, i requires 0 <= i < n => Member(FIELDS[i], Plain(Attributes(r)[i])))
  }

  function Preimage(r: IntegrityRecord): seq<Utf8.Byte> {
    Utf8.Encode(ObjectText(Entries(r, |FIELDS|)))
  }

  /** Assignment to a dictionary key: replaced in place, or added at the end. */
  function Put(ms: seq<Member>, name: string, value: Value): seq<Member> {
    if ms == [] then [Member(name, value)]
    else if ms[0].name == name then [Member(name, value)] + ms[1..]
    else [ms[0]] + Put(ms[1..], name, value)
  }

  lemma {:induction false} PutNew(ms: seq<Member>, name: string, value: Value)
    requires forall m | m in ms :: m.name != name
    ensures Put(ms, name, value) == ms + [Member(name, value)]
  {
    if ms != [] {
      PutNew(ms[1..], name, value);
    }
  }

  lemma FieldNamesDiffer()
    ensures Distinct(FIELDS)
  {
  }

  method ComputeDigest(r: IntegrityRecord, sha256: seq<Utf8.Byte> -> string) returns (digest: string)
    ensures digest == sha256(Preimage(r))
  {
    var values := [];
    FieldNamesDiffer();
    for i := 0 to |FIELDS|
      invariant values == Entries(r, i)
    {
      hide Plain;
      PutNew(values, FIELDS[i], Plain(Attributes(r)[i]));
      values := Put(values, FIELDS[i], Plain(Attributes(r)[i]));
    }
    digest := sha256(Utf8.Encode(ObjectText(values)));
  }

  // ---- what the digest binds

  /** The twelve values the digest is about; the time counts as an instant. */
  datatype Bound = Bound(
    runId: Uuid, definition: string, target: string, dataset: string, split: string, policy: string,
    evaluator: string, accessPlan: string, lineage: string, reproducibility: string, revision: nat, createdAt: int)

  function BoundOf(r: IntegrityRecord): Bound {
    Bound(r.runId, r.definition, r.target, r.dataset, r.split, r.policy, r.evaluator, r.accessPlan, r.lineage,
          r.reproducibility, r.revision, r.createdAt.instant)
  }

  /** Reads the twelve values back from the hashed bytes. */
  function Recover(bs: seq<Utf8.Byte>): Option<Bound> {
    match Utf8.Decode(bs)
    case None => None
    case Some(text) =>
      match ReadObject(text)
      case None => None
      case Some(ms) => FromMembers(ms)
  }

  function FromMembers(ms: seq<Member>): Option<Bound> {
    if |ms| != 12 || !ms[10].value.Num? || (exists i | 0 <= i < 12 :: i != 10 && !ms[i].value.Str?) then None
    else
      match (UuidFromText(ms[0].value.text), Calendar.InstantFromText(ms[11].value.text))
      case (Some(u), Some(t)) =>
        Some(Bound(u, ms[1].value.text, ms[2].value.text, ms[3].value.text, ms[4].value.text, ms[5].value.text,
                   ms[6].value.text, ms[7].value.text, ms[8].value.text, ms[9].value.text, ms[10].value.number, t))
      case _ => None
  }

  lemma FromMembersUndoes(r: IntegrityRecord)
    ensures FromMembers(Entries(r, |FIELDS|)) == Some(BoundOf(r))
  {
    UuidRoundTrip(r.runId);
    Calendar.TextRoundTrip(r.createdAt);
    hide UuidFromText, UuidText, Calendar.Text, Calendar.InstantFromText;
    var ms := Entries(r, |FIELDS|);
    assert forall i | 0 <= i < 12 && i != 10 :: ms[i].value.Str?;
  }

  /** Decoding the hashed bytes yields exactly the twelve values. */
  lemma PreimageDecodes(r: IntegrityRecord)
    ensures Recover(Preimage(r)) == Some(BoundOf(r))
  {
    var ms := Entries(r, |FIELDS|);
    ReadObjectUndoes(ms);
    Utf8.RoundTrip(ObjectText(ms));
    FromMembersUndoes(r);
    hide FromMembers, ReadObject, ObjectText, Entries;
  }

  /** The dictionary's twelve entries: these names, each with its own field. */
  function Listed(r: IntegrityRecord): seq<Member> {
    [Member("evaluation_run_id", Str(UuidText(r.runId))),
     Member("definition_digest_reference", Str(r.definition)),
     Member("target_digest_reference", Str(r.target)),
     Member("dataset_digest_reference", Str(r.dataset)),
     Member("split_digest_reference", Str(r.split)),
     Member("policy_digest_reference", Str(r.policy)),
     Member("evaluator_digest_reference", Str(r.evaluator)),
     Member("access_plan_digest_reference", Str(r.accessPlan)),
     Member("lineage_digest", Str(r.lineage)),
     Member("reproducibility_digest_reference", Str(r.reproducibility)),
     Member("integrity_revision", Num(r.revision)),
     Member("created_at", Str(Calendar.Text(r.createdAt)))]
  }

  lemma EntriesAreListed(r: IntegrityRecord)
    ensures Entries(r, |FIELDS|) == Listed(r)
  {
    hide UuidText, Calendar.Text;
  }

  /** The hashed bytes are the UTF-8 text of one JSON object with exactly those members. */
  lemma PreimageReads(r: IntegrityRecord)
    ensures Utf8.Decode(Preimage(r)).Some?
    ensures ReadObject(Utf8.Decode(Preimage(r)).value) == Some(Listed(r))
  {
    EntriesAreListed(r);
    var ms := Entries(r, |FIELDS|);
    ReadObjectUndoes(ms);
    Utf8.RoundTrip(ObjectText(ms));
    hide *;
  }

  /** Two records have the same hashed bytes exactly when they agree on the twelve values. */
  lemma PreimageIsInjective(a: IntegrityRecord, b: IntegrityRecord)
    ensures Preimage(a) == Preimage(b) <==> BoundOf(a) == BoundOf(b)
  {
    PreimageDecodes(a);
    PreimageDecodes(b);
    if BoundOf(a) == BoundOf(b) {
      EntriesDependOnBound(a, b);
    }
    hide Recover, Entries, BoundOf;
  }

  lemma EntriesDependOnBound(a: IntegrityRecord, b: IntegrityRecord)
    requires BoundOf(a) == BoundOf(b)
    ensures Entries(a, |FIELDS|) == Entries(b, |FIELDS|)
  {
  }

  // ---- validation

  datatype IntegrityError = DigestMismatch | ReferenceMismatch

  /** Checks a record against an expected digest and the references of an original. */
  method Validate(r: IntegrityRecord, expected: string, o: IntegrityRecord, sha256: seq<Utf8.Byte> -> string)
    returns (outcome: Outcome<IntegrityError>)
    ensures outcome == CheckIntegrity(r, expected, o, sha256)
  {
    var digest := ComputeDigest(r, sha256);
    if digest != expected {
      return Fail(DigestMismatch);
    }
    if References(r) != References(o) {
      return Fail(ReferenceMismatch);
    }
    return Pass;
  }

  function References(r: IntegrityRecord): seq<Option<string>> {
    [Some(r.definition), Some(r.target), Some(r.dataset), Some(r.split), Some(r.policy), Some(r.evaluator),
     Some(r.accessPlan), Some(r.lineage), Some(r.reproducibility), r.registry, r.manifest]
  }

  function CheckIntegrity(r: IntegrityRecord, expected: string, o: IntegrityRecord,
                          sha256: seq<Utf8.Byte> -> string): Outcome<IntegrityError> {
    if sha256(Preimage(r)) != expected then Fail(DigestMismatch)
    else if References(r) != References(o) then Fail(ReferenceMismatch)
    else Pass
  }

  /** Whatever digest is expected: first the digest, then each of the eleven references. */
  lemma ValidateIsExact(r: IntegrityRecord, expected: string, o: IntegrityRecord, sha256: seq<Utf8.Byte> -> string)
    ensures CheckIntegrity(r, expected, o, sha256) ==
            Outcome<IntegrityError>.Pass
            .Check(sha256(Preimage(r)) == expected, DigestMismatch)
            .Check(r.definition == o.definition && r.target == o.target && r.dataset == o.dataset && r.split == o.split
                   && r.policy == o.policy && r.evaluator == o.evaluator && r.accessPlan == o.accessPlan
                   && r.lineage == o.lineage && r.reproducibility == o.reproducibility
                   && r.registry == o.registry && r.manifest == o.manifest, ReferenceMismatch)
  {
    hide Preimage;
    if References(r) == References(o) {
      assert forall i | 0 <= i < 11 :: References(r)[i] == References(o)[i];
      assert References(r)[0] == References(o)[0] && References(r)[1] == References(o)[1];
      assert References(r)[2] == References(o)[2] && References(r)[3] == References(o)[3];
      assert References(r)[4] == References(o)[4] && References(r)[5] == References(o)[5];
      assert References(r)[6] == References(o)[6] && References(r)[7] == References(o)[7];
      assert References(r)[8] == References(o)[8] && References(r)[9] == References(o)[9];
      assert References(r)[10] == References(o)[10];
    }
  }

  /** Unless the hash collides, a record validates against another's digest and references
      exactly when the two differ at most in record id and in the offset the time is
      written at. The registry and manifest references are not in the digest: a record that
      differs only there has the right digest and is caught by the reference check. */
  lemma ValidationDetectsEveryChange(r: IntegrityRecord, o: IntegrityRecord, sha256: seq<Utf8.Byte> -> string)
    requires sha256(Preimage(r)) == sha256(Preimage(o)) ==> Preimage(r) == Preimage(o)
    ensures CheckIntegrity(r, sha256(Preimage(o)), o, sha256).Pass?
            <==> r.(recordId := o.recordId, createdAt := r.createdAt.(offsetMinutes := o.createdAt.offsetMinutes)) == o
    ensures BoundOf(r) == BoundOf(o) && (r.registry != o.registry || r.manifest != o.manifest)
            <==> CheckIntegrity(r, sha256(Preimage(o)), o, sha256) == Fail(ReferenceMismatch)
  {
    PreimageIsInjective(r, o);
    hide Preimage;
    if References(r) == References(o) {
      assert forall i | 0 <= i < 11 :: References(r)[i] == References(o)[i];
      assert References(r)[0] == References(o)[0] && References(r)[1] == References(o)[1];
      assert References(r)[9] == References(o)[9] && References(r)[10] == References(o)[10];
    }
  }
}
