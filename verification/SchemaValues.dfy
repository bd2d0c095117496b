/** The deterministic gateway's value generator: for a JSON schema it builds one value, and
    in the fragment it handles the value is valid. A schema is raw JSON, as in the source;
    a keyword of the wrong JSON type makes the generator fail. */
module SchemaValues {
  import opened Common
  import Calendar
  import Digits

  datatype Json =
    | Null
    | Bool(b: bool)
    | Int(n: int)
    | Num(x: real)
    | Str(s: string)
    | Arr(items: seq<Json>)
    | Obj(fields: map<string, Json>)

  // ---- keywords

  datatype Keywords = Keywords(
    reference: Option<Json>, constant: Option<Json>, enumeration: Option<Json>, anyOf: Option<Json>,
    kind: Option<Json>, properties: Option<Json>, required: Option<Json>, additional: Option<Json>,
    items: Option<Json>, minItems: Option<Json>, minimum: Option<Json>, format: Option<Json>)

  const NO_KEYWORDS := Keywords(None, None, None, None, None, None, None, None, None, None, None, None)

  function Get(fields: map<string, Json>, name: string): Option<Json> {
    if name in fields then Some(fields[name]) else None
  }

  function KeywordsOf(fields: map<string, Json>): Keywords {
    Keywords(
      Get(fields, "$ref"), Get(fields, "const"), Get(fields, "enum"), Get(fields, "anyOf"), Get(fields, "type"),
      Get(fields, "properties"), Get(fields, "required"), Get(fields, "additionalProperties"),
      Get(fields, "items"), Get(fields, "minItems"), Get(fields, "minimum"), Get(fields, "format"))
  }

  datatype Kind = KNull | KBoolean | KObject | KArray | KNumber | KInteger | KString | KUnknown

  function KindOf(name: string): Kind {
    match name
    case "null" => KNull
    case "boolean" => KBoolean
    case "object" => KObject
    case "array" => KArray
    case "number" => KNumber
    case "integer" => KInteger
    case "string" => KString
    case _ => KUnknown
  }

  /** The `type` keyword names exactly this kind. */
  predicate IsKind(typ: Option<Json>, k: Kind) {
    typ.Some? && typ.value.Str? && KindOf(typ.value.s) == k
  }

  datatype Format = Uuid | DateTime | OtherFormat

  function FormatOf(format: Option<Json>): Format {
    if format == Some(Str("uuid")) then Uuid else if format == Some(Str("date-time")) then DateTime else OtherFormat
  }

  // ---- the generator

  /** `split("/")`: never empty. */
  function Split(s: string): (parts: seq<string>)
    ensures parts != []
  {
    if s == "" then [""]
    else
      var rest := Split(s[1..]);
      if s[0] == '/' then [""] + rest else [[s[0]] + rest[0]] + rest[1..]
  }

  function RemovePrefix(s: string, prefix: string): string {
    if prefix <= s then s[|prefix|..] else s
  }

  function Walk(target: Json, parts: seq<string>): Option<Json> {
    if parts == [] then Some(target)
    else if target.Obj? && parts[0] in target.fields then Walk(target.fields[parts[0]], parts[1..])
    else None
  }

  /** What a `$ref` keyword points at inside the root schema. */
  function Target(root: Json, reference: Json): Option<Json> {
    if reference.Str? then Walk(root, Split(RemovePrefix(reference.s, "#/"))) else None
  }

  method Resolve(root: Json, reference: Json) returns (result: Option<Json>)
    ensures result == Target(root, reference)
  {
    if !reference.Str? {
      return None;
    }
    var target := root;
    var parts := Split(RemovePrefix(reference.s, "#/"));
    for i := 0 to |parts|
      invariant Walk(root, parts) == Walk(target, parts[i..])
    {
      if !target.Obj? || parts[i] !in target.fields {
        return None;
      }
      assert parts[i..][1..] == parts[i + 1..];
      target := target.fields[parts[i]];
    }
    return Some(target);
  }

  /** What one call of the recursive helper does before recursing: follow one schema, give
      a value outright, fill an object from subschemas (a name without one gets a fixed
      string), or repeat one schema's value. */
  datatype Plan =
    | Follow(schema: Json)
    | Give(value: Json)
    | Build(parts: map<string, Option<Json>>)
    | Repeat(schema: Json, count: nat)

  function AsInt(j: Json): Option<int> {
    match j
    case Int(n) => Some(n)
    case Bool(b) => Some(if b then 1 else 0)
    case _ => None
  }

  function Truncate(x: real): int {
    if x >= 0.0 then x.Floor else -(-x).Floor
  }

  /** `next` over the options that are not the null type, defaulting to the first one. */
  function FirstNonNull(options: seq<Json>, default: Json): Option<Json> {
    if options == [] then Some(default)
    else if !options[0].Obj? then None
    else if Get(options[0].fields, "type") != Some(Str("null")) then Some(options[0])
    else FirstNonNull(options[1..], default)
  }

  function Names(required: Json): Option<set<string>> {
    if required.Arr? && forall r | r in required.items :: r.Str?
    then Some(set r | r in required.items :: r.s)
    else None
  }

  function ObjectPlan(k: Keywords): Option<Plan> {
    var properties := if k.properties.Some? then k.properties.value else Obj(map[]);
    if !properties.Obj? then None
    else
      var names := if k.required.Some? then Names(k.required.value) else Some(properties.fields.Keys);
      if names.None? then None
      else Some(Build(map name | name in names.value :: Get(properties.fields, name)))
  }

  function ArrayPlan(k: Keywords): Option<Plan> {
    var minimum := if k.minItems.Some? then AsInt(k.minItems.value) else Some(0);
    var item := if k.items.Some? then k.items.value else Obj(map[]);
    if minimum.None? then None else Some(Repeat(item, Max(0, minimum.value)))
  }

  function IntegerPlan(minimum: Json): Option<Plan> {
    match minimum
    case Num(x) => Some(Give(Int(Max(1, Truncate(x)))))
    case _ =>
      match AsInt(minimum)
      case Some(n) => Some(Give(Int(Max(1, n))))
      case None => None
  }

  function NumberPlan(minimum: Json): Option<Plan> {
    match minimum
    case Num(x) => Some(Give(Num(if x > 1.0 then x else 1.0)))
    case _ =>
      match AsInt(minimum)
      case Some(n) => Some(Give(Num(Max(1, n) as real)))
      case None => None
  }

  /** The branches on `type`, once no reference, constant or alternative applies. */
  function TypedPlan(k: Keywords): Option<Plan> {
    if IsKind(k.kind, KObject) || k.properties.Some? then ObjectPlan(k)
    else if IsKind(k.kind, KArray) then ArrayPlan(k)
    else if IsKind(k.kind, KInteger) then IntegerPlan(if k.minimum.Some? then k.minimum.value else Int(0))
    else if IsKind(k.kind, KNumber) then NumberPlan(if k.minimum.Some? then k.minimum.value else Int(0))
    else if IsKind(k.kind, KBoolean) then Some(Give(Bool(false)))
    else Some(Give(Str(Sample(FormatOf(k.format)))))
  }

  function Dispatch(root: Json, node: Json): Option<Plan> {
    if !node.Obj? then None
    else
      var k := KeywordsOf(node.fields);
      if k.reference.Some? then
        match Target(root, k.reference.value)
        case Some(target) => Some(Follow(target))
        case None => None
      else if k.constant.Some? then Some(Give(k.constant.value))
      else if k.enumeration.Some? then
        if k.enumeration.value.Arr? && k.enumeration.value.items != []
        then Some(Give(k.enumeration.value.items[0]))
        else None
      else if k.anyOf.Some? then
        if k.anyOf.value.Arr? && k.anyOf.value.items != [] then
          match FirstNonNull(k.anyOf.value.items, k.anyOf.value.items[0])
          case Some(option) => Some(Follow(option))
          case None => None
        else None
      else TypedPlan(k)
  }

  function Sample(format: Format): string {
    match format
    case Uuid => "00000000-0000-0000-0000-000000000001"
    case DateTime => "2026-01-01T00:00:00Z"
    case OtherFormat => "fake"
  }

  /** The recursive helper under a limit on nested calls, as the interpreter imposes one. */
  function Generate(root: Json, node: Json, depth: nat): Option<Json>
    decreases depth
  {
    if depth == 0 then None
    else
      match Dispatch(root, node)
      case None => None
      case Some(Give(value)) => Some(value)
      case Some(Follow(schema)) => Generate(root, schema, depth - 1)
      case Some(Build(parts)) =>
        if forall name | name in parts && parts[name].Some? :: Generate(root, parts[name].value, depth - 1).Some?
        then Some(Obj(map name | name in parts ::
                    if parts[name].Some? then Generate(root, parts[name].value, depth - 1).value else Str("fake")))
        else None
      case Some(Repeat(schema, count)) =>
        if count == 0 then Some(Arr([]))
        else
          match Generate(root, schema, depth - 1)
          case None => None
          case Some(value) => Some(Arr(seq(count, _ => value)))
  }

  function FakeOutput(schema: Option<Json>, depth: nat): Option<Json> {
    match schema
    case None => Some(Obj(map["result" := Str("fake")]))
    case Some(root) =>
      match Generate(root, root, depth)
      case None => None
      case Some(value) => Some(if value.Obj? then value else Obj(map["result" := value]))
  }

  // ---- when generation succeeds

  /** The schemas a call recurses into. */
  function Calls(root: Json, node: Json): set<Json> {
    match Dispatch(root, node)
    case None => {}
    case Some(Give(_)) => {}
    case Some(Follow(schema)) => {schema}
    case Some(Build(parts)) => set name | name in parts && parts[name].Some? :: parts[name].value
    case Some(Repeat(schema, count)) => if count == 0 then {} else {schema}
  }

  predicate Chain(root: Json, s: seq<Json>) {
    forall i | 0 < i < |s| :: s[i] in Calls(root, s[i - 1])
  }

  predicate ChainFrom(root: Json, node: Json, s: seq<Json>) {
    s != [] && s[0] == node && Chain(root, s)
  }

  /** Every call chain stays within the limit and meets no malformed schema. */
  ghost predicate Bounded(root: Json, node: Json, depth: nat) {
    forall s | ChainFrom(root, node, s) :: |s| <= depth && Dispatch(root, s[|s| - 1]).Some?
  }

  lemma BoundedHere(root: Json, node: Json, depth: nat)
    requires Bounded(root, node, depth)
    ensures depth > 0 && Dispatch(root, node).Some?
  {
    assert ChainFrom(root, node, [node]);
  }

  lemma BoundedBelow(root: Json, node: Json, depth: nat, child: Json)
    requires Bounded(root, node, depth) && depth > 0 && child in Calls(root, node)
    ensures Bounded(root, child, depth - 1)
  {
    hide Dispatch, Calls;
    forall s | ChainFrom(root, child, s)
      ensures |s| <= depth - 1 && Dispatch(root, s[|s| - 1]).Some?
    {
      assert ChainFrom(root, node, [node] + s);
      assert ([node] + s)[|s|] == s[|s| - 1];
    }
  }

  lemma BoundedFromBelow(root: Json, node: Json, depth: nat)
    requires depth > 0 && Dispatch(root, node).Some?
    requires forall child | child in Calls(root, node) :: Bounded(root, child, depth - 1)
    ensures Bounded(root, node, depth)
  {
    hide Dispatch, Calls;
    forall s | ChainFrom(root, node, s)
      ensures |s| <= depth && Dispatch(root, s[|s| - 1]).Some?
    {
      if |s| > 1 {
        assert ChainFrom(root, s[1], s[1..]);
      }
    }
  }

  lemma CallsOfPlan(root: Json, node: Json)
    ensures match Dispatch(root, node)
            case Some(Follow(schema)) => Calls(root, node) == {schema}
            case Some(Build(parts)) =>
              && (forall name | name in parts && parts[name].Some? :: parts[name].value in Calls(root, node))
              && (forall child | child in Calls(root, node) ::
                    exists name :: name in parts && parts[name] == Some(child))
            case Some(Repeat(schema, count)) => Calls(root, node) == if count == 0 then {} else {schema}
            case _ => Calls(root, node) == {}
  {
  }

  predicate CallsSucceed(root: Json, node: Json, depth: nat) {
    forall child | child in Calls(root, node) :: Generate(root, child, depth).Some?
  }

  lemma GenerateStep(root: Json, node: Json, depth: nat)
    requires depth > 0
    ensures Generate(root, node, depth).Some? <==> Dispatch(root, node).Some? && CallsSucceed(root, node, depth - 1)
  {
    CallsOfPlan(root, node);
    hide Dispatch, Calls;
  }

  /** Generation succeeds exactly when no chain of nested schemas is longer than the
      recursion limit and none reaches a malformed one. */
  lemma {:induction false} GenerateSucceedsIff(root: Json, node: Json, depth: nat)
    ensures Generate(root, node, depth).Some? <==> Bounded(root, node, depth)
    decreases depth
  {
    hide Dispatch, Calls, Bounded;
    if Bounded(root, node, depth) {
      BoundedHere(root, node, depth);
    }
    if depth > 0 {
      forall child | child in Calls(root, node)
        ensures Generate(root, child, depth - 1).Some? <==> Bounded(root, child, depth - 1)
        ensures Bounded(root, node, depth) ==> Bounded(root, child, depth - 1)
      {
        GenerateSucceedsIff(root, child, depth - 1);
        if Bounded(root, node, depth) {
          BoundedBelow(root, node, depth, child);
        }
      }
      GenerateStep(root, node, depth);
      if Dispatch(root, node).Some? && CallsSucceed(root, node, depth - 1) {
        BoundedFromBelow(root, node, depth);
      }
    }
  }

  /** A schema that leads back to itself never gets a value, whatever the limit. */
  lemma {:induction false} CyclesNeverEnd(root: Json, cycle: seq<Json>, depth: nat)
    requires |cycle| > 1 && Chain(root, cycle) && cycle[0] == cycle[|cycle| - 1]
    ensures Generate(root, cycle[0], depth).None?
    decreases depth
  {
    if depth > 0 {
      var turned := cycle[1..] + [cycle[1]];
      forall i | 0 < i < |turned| ensures turned[i] in Calls(root, turned[i - 1]) {
        assert cycle[i] in Calls(root, cycle[i - 1]);
        assert i + 1 < |cycle| ==> cycle[i + 1] in Calls(root, cycle[i]);
        assert cycle[1] in Calls(root, cycle[0]);
      }
      CyclesNeverEnd(root, turned, depth - 1);
      GenerateStep(root, cycle[0], depth);
      assert cycle[1] in Calls(root, cycle[0]);
      hide *;
    }
  }

  /** A higher limit changes no value that a lower one already allows. */
  lemma {:induction false} LimitIsIrrelevant(root: Json, node: Json, depth: nat, more: nat)
    requires depth <= more && Generate(root, node, depth).Some?
    ensures Generate(root, node, more) == Generate(root, node, depth)
    decreases depth
  {
    hide Dispatch, Calls, Generate;
    CallsOfPlan(root, node);
    GenerateShape(root, node, depth);
    GenerateStep(root, node, depth);
    forall child | child in Calls(root, node)
      ensures Generate(root, child, more - 1) == Generate(root, child, depth - 1)
    {
      LimitIsIrrelevant(root, child, depth - 1, more - 1);
    }
    GenerateStep(root, node, more);
    GenerateShape(root, node, more);
    var v, w := Generate(root, node, depth).value, Generate(root, node, more).value;
    match Dispatch(root, node).value
    case Build(parts) => assert v.fields == w.fields;
    case Repeat(schema, count) =>
      forall i | 0 <= i < count ensures v.items[i] == w.items[i] {
        assert v.items[i] in v.items && w.items[i] in w.items && schema in Calls(root, node);
      }
      assert v.items == w.items;
    case _ =>
  }

  // ---- what each kind of schema yields

  /** A schema whose type is exactly null. */
  predicate IsNullType(schema: Json) {
    schema.Obj? && "type" in schema.fields && schema.fields["type"] == Str("null")
  }

  predicate HasAny(fields: map<string, Json>, names: set<string>) {
    exists name :: name in names && name in fields
  }

  lemma {:induction false} ChoiceOf(options: seq<Json>, default: Json, i: nat)
    requires i < |options| && options[i].Obj? && !IsNullType(options[i]) && forall j | 0 <= j < i :: IsNullType(options[j])
    ensures FirstNonNull(options, default) == Some(options[i])
  {
    if i > 0 {
      assert IsNullType(options[0]);
      ChoiceOf(options[1..], default, i - 1);
    }
  }

  lemma {:induction false} ChoiceOfNulls(options: seq<Json>, default: Json)
    requires forall option | option in options :: IsNullType(option)
    ensures FirstNonNull(options, default) == Some(default)
  {
    if options != [] {
      assert IsNullType(options[0]);
      ChoiceOfNulls(options[1..], default);
    }
  }

  /** Alternatives yield the value of the first that is not null, and of the first when all are. */
  lemma AlternativesYield(root: Json, node: Json, i: nat, depth: nat)
    requires node.Obj? && !HasAny(node.fields, {"$ref", "const", "enum"})
    requires "anyOf" in node.fields && node.fields["anyOf"].Arr? && i < |node.fields["anyOf"].items|
    requires var options := node.fields["anyOf"].items;
             || (options[i].Obj? && !IsNullType(options[i]) && forall j | 0 <= j < i :: IsNullType(options[j]))
             || (i == 0 && forall option | option in options :: IsNullType(option))
    ensures Generate(root, node, depth + 1) == Generate(root, node.fields["anyOf"].items[i], depth)
  {
    var options := node.fields["anyOf"].items;
    if options[i].Obj? && !IsNullType(options[i]) {
      ChoiceOf(options, options[0], i);
    } else {
      ChoiceOfNulls(options, options[0]);
    }
    hide FirstNonNull, TypedPlan, Target;
    assert !("$ref" in node.fields) && !("const" in node.fields) && !("enum" in node.fields);
  }

  /** A constant yields itself, an enumeration its first item. */
  lemma FixedValuesYield(root: Json, node: Json, depth: nat)
    requires node.Obj? && "$ref" !in node.fields
    ensures "const" in node.fields ==> Generate(root, node, depth + 1) == Some(node.fields["const"])
    ensures "const" !in node.fields && "enum" in node.fields && node.fields["enum"].Arr? && node.fields["enum"].items != []
            ==> Generate(root, node, depth + 1) == Some(node.fields["enum"].items[0])
  {
    hide TypedPlan, Target, FirstNonNull;
  }

  lemma KindNames(typ: Option<Json>)
    ensures IsKind(typ, KObject) <==> typ == Some(Str("object"))
    ensures IsKind(typ, KArray) <==> typ == Some(Str("array"))
    ensures IsKind(typ, KInteger) <==> typ == Some(Str("integer"))
    ensures IsKind(typ, KNumber) <==> typ == Some(Str("number"))
    ensures IsKind(typ, KBoolean) <==> typ == Some(Str("boolean"))
  {
  }

  /** With none of the keywords looked at first, the type and what belongs to it decide. */
  lemma TypeDecides(root: Json, node: Json) returns (k: Keywords)
    requires node.Obj? && !HasAny(node.fields, {"$ref", "const", "enum", "anyOf"})
    ensures Dispatch(root, node) == TypedPlan(k)
    ensures k.kind == Get(node.fields, "type") && k.format == Get(node.fields, "format")
    ensures k.minimum == Get(node.fields, "minimum") && k.properties == Get(node.fields, "properties")
    ensures k.required == Get(node.fields, "required") && k.items == Get(node.fields, "items")
    ensures k.minItems == Get(node.fields, "minItems")
  {
    k := KeywordsOf(node.fields);
    assert forall name | name in {"$ref", "const", "enum", "anyOf"} :: Get(node.fields, name) == None;
    hide TypedPlan, Target, FirstNonNull;
  }

  /** Numbers are at least one and at least their minimum. */
  lemma NumbersYield(root: Json, node: Json, depth: nat)
    requires node.Obj? && !HasAny(node.fields, {"$ref", "const", "enum", "anyOf"}) && "properties" !in node.fields
    ensures var typ, v := Get(node.fields, "type"), Generate(root, node, depth + 1);
            var minimum := if "minimum" in node.fields then node.fields["minimum"] else Int(0);
            && (typ == Some(Str("integer")) && minimum.Int? ==> v == Some(Int(if minimum.n > 1 then minimum.n else 1)))
            && (typ == Some(Str("integer")) && minimum.Num? ==>
                  v == Some(Int(if minimum.x >= 2.0 then minimum.x.Floor else 1)))
            && (typ == Some(Str("integer")) && minimum.Bool? ==> v == Some(Int(1)))
            && (typ == Some(Str("number")) && minimum.Bool? ==> v == Some(Num(1.0)))
            && (typ == Some(Str("number")) && minimum.Int? ==>
                  v == Some(Num(if minimum.n > 1 then minimum.n as real else 1.0)))
            && (typ == Some(Str("number")) && minimum.Num? ==>
                  v == Some(Num(if minimum.x > 1.0 then minimum.x else 1.0)))
  {
    var k := TypeDecides(root, node);
    KindNames(k.kind);
    hide Dispatch, IsKind, ObjectPlan, ArrayPlan, FormatOf, Sample;
  }

  /** A boolean is false, and whatever is no object, array or number is text of its format. */
  lemma TextsYield(root: Json, node: Json, depth: nat)
    requires node.Obj? && !HasAny(node.fields, {"$ref", "const", "enum", "anyOf"}) && "properties" !in node.fields
    ensures var typ, format, v := Get(node.fields, "type"), Get(node.fields, "format"), Generate(root, node, depth + 1);
            && (typ == Some(Str("boolean")) ==> v == Some(Bool(false)))
            && (typ !in {Some(Str("object")), Some(Str("array")), Some(Str("integer")), Some(Str("number")),
                         Some(Str("boolean"))} ==>
                  v == Some(Str(if format == Some(Str("uuid")) then "00000000-0000-0000-0000-000000000001"
                                else if format == Some(Str("date-time")) then "2026-01-01T00:00:00Z"
                                else "fake")))
  {
    var k := TypeDecides(root, node);
    KindNames(k.kind);
    hide Dispatch, IsKind, ObjectPlan, ArrayPlan, IntegerPlan, NumberPlan;
  }

  lemma ObjectPlanIs(k: Keywords, properties: map<string, Json>, names: set<string>)
    requires if k.properties.Some? then k.properties.value == Obj(properties) else properties == map[]
    requires if k.required.Some? then Names(k.required.value) == Some(names) else names == properties.Keys
    ensures ObjectPlan(k) == Some(Build(map name | name in names :: Get(properties, name)))
  {
    hide Names;
  }

  lemma BuildYields(root: Json, node: Json, parts: map<string, Option<Json>>, depth: nat, v: Json)
    requires Dispatch(root, node) == Some(Build(parts))
    ensures Generate(root, node, depth + 1) == Some(v) <==>
            && v.Obj? && v.fields.Keys == parts.Keys
            && forall name | name in parts ::
                 Some(v.fields[name])
                 == if parts[name].Some? then Generate(root, parts[name].value, depth) else Some(Str("fake"))
  {
    hide Dispatch;
    var g := Generate(root, node, depth + 1);
    if g.Some? && v.Obj? {
      assert g.value.fields == v.fields <==>
          v.fields.Keys == parts.Keys && forall name | name in parts :: v.fields[name] == g.value.fields[name];
    }
  }

  /** An object has exactly the required names, or its properties' when none are listed: each
      with its own schema's value, or a fixed text when there is no such property. */
  lemma ObjectsYield(root: Json, node: Json, properties: map<string, Json>, names: set<string>, depth: nat, v: Json)
    requires node.Obj? && !HasAny(node.fields, {"$ref", "const", "enum", "anyOf"})
    requires Get(node.fields, "type") == Some(Str("object")) || "properties" in node.fields
    requires if "properties" in node.fields then node.fields["properties"] == Obj(properties) else properties == map[]
    requires if "required" in node.fields then Names(node.fields["required"]) == Some(names) else names == properties.Keys
    ensures Generate(root, node, depth + 1) == Some(v) <==>
            && v.Obj? && v.fields.Keys == names
            && forall name | name in names ::
                 Some(v.fields[name])
                 == if name in properties then Generate(root, properties[name], depth) else Some(Str("fake"))
  {
    var k := TypeDecides(root, node);
    KindNames(k.kind);
    ObjectPlanIs(k, properties, names);
    BuildYields(root, node, map name | name in names :: Get(properties, name), depth, v);
    hide Dispatch, IsKind, Names, ObjectPlan, Generate;
  }

  /** An array repeats its items' value, or that of a schema without keywords, as often as it must. */
  lemma ArraysYield(root: Json, node: Json, minimum: int, depth: nat)
    requires node.Obj? && !HasAny(node.fields, {"$ref", "const", "enum", "anyOf"}) && "properties" !in node.fields
    requires Get(node.fields, "type") == Some(Str("array"))
    requires if "minItems" in node.fields
             then node.fields["minItems"] == Int(minimum)
                  || (node.fields["minItems"] == Bool(minimum == 1) && minimum in {0, 1})
             else minimum == 0
    ensures var item := Generate(root, if "items" in node.fields then node.fields["items"] else Obj(map[]), depth);
            Generate(root, node, depth + 1) ==
            if minimum <= 0 then Some(Arr([]))
            else if item.None? then None else Some(Arr(seq(minimum, _ => item.value)))
  {
    var k := TypeDecides(root, node);
    KindNames(k.kind);
    hide Dispatch, IsKind;
  }

  // ---- termination

  /** Every JSON value inside a value, itself included. */
  function Parts(j: Json): (r: set<Json>)
    ensures j in r
  {
    match j
    case Arr(items) => {j} + set i, x | 0 <= i < |items| && x in Parts(items[i]) :: x
    case Obj(fields) => {j} + set name, x | name in fields && x in Parts(fields[name]) :: x
    case _ => {j}
  }

  lemma {:induction false} PartsNest(j: Json, y: Json)
    requires y in Parts(j)
    ensures Parts(y) <= Parts(j)
  {
    if y != j {
      match j
      case Arr(items) =>
        var i :| 0 <= i < |items| && y in Parts(items[i]);
        PartsNest(items[i], y);
      case Obj(fields) =>
        var name :| name in fields && y in Parts(fields[name]);
        PartsNest(fields[name], y);
    }
  }

  /** The schemas a generation can ever be called on: parts of the root, and the empty schema
      that stands in for absent items. */
  function Schemas(root: Json): set<Json> {
    Parts(root) + {Obj(map[])}
  }

  lemma MemberIsPart(root: Json, j: Json, y: Json)
    requires j in Schemas(root)
    requires (j.Arr? && y in j.items) || (j.Obj? && exists name :: name in j.fields && j.fields[name] == y)
    ensures y in Schemas(root)
  {
    assert y in Parts(y);
    if j in Parts(root) {
      PartsNest(root, j);
    }
    assert y in Parts(j);
  }

  lemma {:induction false} WalkStaysInside(root: Json, j: Json, parts: seq<string>)
    requires j in Schemas(root)
    ensures Walk(j, parts).Some? ==> Walk(j, parts).value in Schemas(root)
  {
    if parts != [] && j.Obj? && parts[0] in j.fields {
      MemberIsPart(root, j, j.fields[parts[0]]);
      WalkStaysInside(root, j.fields[parts[0]], parts[1..]);
    }
  }

  /** A nested call goes to a reference's target, an option, a property or the items. */
  lemma CallsStayInside(root: Json, node: Json, child: Json)
    requires node in Schemas(root) && child in Calls(root, node)
    ensures child in Schemas(root)
  {
    var k := KeywordsOf(node.fields);
    hide Schemas, Parts;
    forall name | name in node.fields ensures node.fields[name] in Schemas(root) {
      MemberIsPart(root, node, node.fields[name]);
    }
    RootIsSchema(root);
    if k.reference.Some? {
      WalkStaysInside(root, root, Split(RemovePrefix(k.reference.value.s, "#/")));
      hide Split, RemovePrefix, Walk;
    } else if k.anyOf.Some? {
      var options := k.anyOf.value.items;
      FirstNonNullIsAnOption(options, options[0]);
      MemberIsPart(root, k.anyOf.value, child);
    } else {
      TypedCallsStayInside(root, node, child);
    }
  }

  lemma RootIsSchema(root: Json)
    ensures root in Schemas(root) && Obj(map[]) in Schemas(root)
  {
  }

  lemma TypedCallsStayInside(root: Json, node: Json, child: Json)
    requires node.Obj? && forall name | name in node.fields :: node.fields[name] in Schemas(root)
    requires child in Calls(root, node)
    requires Dispatch(root, node) == TypedPlan(KeywordsOf(node.fields))
    ensures child in Schemas(root)
  {
    var k := KeywordsOf(node.fields);
    CallsOfPlan(root, node);
    RootIsSchema(root);
    hide Schemas, Parts, Dispatch, Calls, IsKind;
    match TypedPlan(k)
    case Some(Build(parts)) =>
      var name :| name in parts && parts[name] == Some(child);
      MemberIsPart(root, k.properties.value, child);
    case Some(Repeat(schema, count)) =>
    case _ =>
  }

  lemma {:induction false} ChainStaysInside(root: Json, s: seq<Json>)
    requires s != [] && s[0] in Schemas(root) && Chain(root, s)
    ensures forall x | x in s :: x in Schemas(root)
  {
    hide Schemas, Calls;
    if |s| > 1 {
      CallsStayInside(root, s[0], s[1]);
      ChainStaysInside(root, s[1..]);
    }
  }

  /** No chain of calls comes back to a schema it has already met. */
  ghost predicate Acyclic(root: Json, node: Json) {
    forall s | ChainFrom(root, node, s) :: Distinct(s)
  }

  /** No chain of calls reaches a malformed schema. */
  ghost predicate WellFormed(root: Json, node: Json) {
    forall s | ChainFrom(root, node, s) :: Dispatch(root, s[|s| - 1]).Some?
  }

  lemma {:induction false} DistinctFit(s: seq<Json>, all: set<Json>)
    requires Distinct(s) && forall x | x in s :: x in all
    ensures |s| <= |all|
  {
    if s != [] {
      var x := s[|s| - 1];
      forall y | y in s[..|s| - 1] ensures y in all - {x} {
        assert y in s;
      }
      DistinctFit(s[..|s| - 1], all - {x});
    }
  }

  /** What is bounded from here is bounded, by less, wherever a chain leads. */
  lemma BoundedAlong(root: Json, node: Json, depth: nat, s: seq<Json>)
    requires Bounded(root, node, depth) && ChainFrom(root, node, s)
    ensures |s| <= depth && Bounded(root, s[|s| - 1], depth - |s| + 1)
  {
    hide Dispatch, Calls;
    var n := |s| - 1;
    forall t | ChainFrom(root, s[n], t)
      ensures |t| <= depth - n && Dispatch(root, t[|t| - 1]).Some?
    {
      var joined := s[..n] + t;
      forall i | 0 < i < |joined| ensures joined[i] in Calls(root, joined[i - 1]) {
        if i < n {
          assert s[i] in Calls(root, s[i - 1]);
        } else if i == n {
          assert s[n] in Calls(root, s[n - 1]);
        } else {
          assert t[i - n] in Calls(root, t[i - n - 1]);
        }
      }
      assert ChainFrom(root, node, joined);
      assert joined[|joined| - 1] == t[|t| - 1];
    }
  }

  lemma BoundedIsAcyclic(root: Json, node: Json, depth: nat)
    requires Bounded(root, node, depth)
    ensures Acyclic(root, node)
  {
    hide Dispatch, Calls, Bounded, Generate;
    forall s | ChainFrom(root, node, s) ensures Distinct(s) {
      forall i, j | 0 <= i < j < |s| ensures s[i] != s[j] {
        if s[i] == s[j] {
          assert ChainFrom(root, node, s[..i + 1]);
          BoundedAlong(root, node, depth, s[..i + 1]);
          GenerateSucceedsIff(root, s[i], depth - i);
          CyclesNeverEnd(root, s[i..j + 1], depth - i);
        }
      }
    }
  }

  /** Generation ends for a schema, under some limit, exactly when no chain of calls is
      cyclic and none reaches a malformed schema; then the number of the schema's parts,
      plus one, is limit enough. */
  lemma EndsIffAcyclic(root: Json)
    ensures (exists depth: nat :: Generate(root, root, depth).Some?) <==> Acyclic(root, root) && WellFormed(root, root)
    ensures Acyclic(root, root) && WellFormed(root, root) ==> Generate(root, root, |Schemas(root)|).Some?
  {
    hide Dispatch, Calls, Schemas, Generate;
    if depth: nat :| Generate(root, root, depth).Some? {
      GenerateSucceedsIff(root, root, depth);
      BoundedIsAcyclic(root, root, depth);
      assert Bounded(root, root, depth);
    }
    if Acyclic(root, root) && WellFormed(root, root) {
      forall s | ChainFrom(root, root, s) ensures |s| <= |Schemas(root)| {
        RootIsSchema(root);
        ChainStaysInside(root, s);
        DistinctFit(s, Schemas(root));
      }
      GenerateSucceedsIff(root, root, |Schemas(root)|);
    }
  }

  // ---- validity

  predicate HasKind(v: Json, k: Kind) {
    match k
    case KNull => v.Null?
    case KBoolean => v.Bool?
    case KObject => v.Obj?
    case KArray => v.Arr?
    case KNumber => v.Int? || v.Num?
    case KInteger => v.Int? || (v.Num? && v.x == v.x.Floor as real)
    case KString => v.Str?
    case KUnknown => false
  }

  predicate TypeAccepts(typ: Option<Json>, v: Json) {
    match typ
    case None => true
    case Some(Str(s)) => HasKind(v, KindOf(s))
    case Some(Arr(names)) => exists t | t in names :: t.Str? && HasKind(v, KindOf(t.s))
    case Some(_) => false
  }

  function Amount(j: Json): Option<real> {
    match j
    case Int(n) => Some(n as real)
    case Num(x) => Some(x)
    case _ => None
  }

  predicate MinimumAccepts(minimum: Option<Json>, v: Json) {
    minimum.None? || Amount(v).None?
    || (Amount(minimum.value).Some? && Amount(minimum.value).value <= Amount(v).value)
  }

  predicate MinItemsAccepts(minItems: Option<Json>, v: Json) {
    minItems.None? || !v.Arr? || (AsInt(minItems.value).Some? && AsInt(minItems.value).value <= |v.items|)
  }

  predicate RequiredAccepts(required: Option<Json>, v: Json) {
    required.None? || !v.Obj? || (Names(required.value).Some? && Names(required.value).value <= v.fields.Keys)
  }

  predicate IsHexAt(s: string, i: nat, j: nat)
    requires i <= j <= |s|
  {
    forall k | i <= k < j :: Digits.IsHex(s[k])
  }

  /** The textual form of section 4 of RFC 9562, in lower case. */
  predicate IsUuidText(s: string) {
    |s| == 36 && s[8] == '-' && s[13] == '-' && s[18] == '-' && s[23] == '-'
    && IsHexAt(s, 0, 8) && IsHexAt(s, 9, 13) && IsHexAt(s, 14, 18) && IsHexAt(s, 19, 23) && IsHexAt(s, 24, 36)
  }

  /** A numeral of fixed width whose value lies in a range. */
  predicate IsField(s: string, lo: nat, hi: nat) {
    Digits.AllDigits(s) && lo <= Digits.Value(s) <= hi
  }

  predicate IsZone(s: string) {
    s == "Z" || (|s| == 6 && s[0] in {'+', '-'} && s[3] == ':' && IsField(s[1..3], 0, 23) && IsField(s[4..6], 0, 59))
  }

  predicate IsFraction(s: string) {
    s == "" || (|s| >= 2 && s[0] == '.' && Digits.AllDigits(s[1..]))
  }

  predicate IsFullDate(s: string) {
    && |s| == 10 && s[4] == '-' && s[7] == '-'
    && IsField(s[..4], 0, 9999) && IsField(s[5..7], 1, 12)
    && IsField(s[8..], 1, Calendar.MonthLength(Calendar.Leap(Digits.Value(s[..4])), Digits.Value(s[5..7])))
  }

  predicate IsPartialTime(s: string) {
    |s| == 8 && s[2] == ':' && s[5] == ':' && IsField(s[..2], 0, 23) && IsField(s[3..5], 0, 59) && IsField(s[6..], 0, 60)
  }

  /** The `date-time` production of section 5.6 of RFC 3339. */
  predicate IsDateTimeText(s: string) {
    && |s| >= 20 && IsFullDate(s[..10]) && s[10] == 'T' && IsPartialTime(s[11..19])
    && exists i | 19 <= i < |s| :: IsFraction(s[19..i]) && IsZone(s[i..])
  }

  predicate FormatAccepts(format: Option<Json>, v: Json) {
    !v.Str? || match FormatOf(format)
               case Uuid => IsUuidText(v.s)
               case DateTime => IsDateTimeText(v.s)
               case OtherFormat => true
  }

  /** The keywords that judge a value without looking inside it. */
  predicate FlatAccepts(k: Keywords, v: Json) {
    && (k.constant.Some? ==> v == k.constant.value)
    && (k.enumeration.Some? ==> k.enumeration.value.Arr? && v in k.enumeration.value.items)
    && TypeAccepts(k.kind, v)
    && RequiredAccepts(k.required, v)
    && MinItemsAccepts(k.minItems, v)
    && MinimumAccepts(k.minimum, v)
    && FormatAccepts(k.format, v)
  }

  function PropertiesOf(k: Keywords): map<string, Json> {
    if k.properties.Some? && k.properties.value.Obj? then k.properties.value.fields else map[]
  }

  // ---- references, as the standard reads them

  /** `~1` stands for a slash and `~0` for a tilde (section 4 of RFC 6901). */
  function Unescape(token: string): Option<string> {
    if token == "" then Some("")
    else if token[0] != '~' then
      match Unescape(token[1..])
      case None => None
      case Some(rest) => Some([token[0]] + rest)
    else if |token| < 2 || token[1] !in {'0', '1'} then None
    else
      match Unescape(token[2..])
      case None => None
      case Some(rest) => Some([if token[1] == '0' then '~' else '/'] + rest)
  }

  /** A numeral without leading zeros. */
  predicate IsIndex(token: string) {
    token == "0" || (token != "" && Digits.AllDigits(token) && token[0] != '0')
  }

  /** A pointer's tokens, each a member of an object or an index of an array. */
  function Navigate(target: Json, tokens: seq<string>): Option<Json> {
    if tokens == [] then Some(target)
    else if target.Obj? then
      match Unescape(tokens[0])
      case None => None
      case Some(name) => if name in target.fields then Navigate(target.fields[name], tokens[1..]) else None
    else if target.Arr? && IsIndex(tokens[0]) && Digits.Value(tokens[0]) < |target.items| then
      Navigate(target.items[Digits.Value(tokens[0])], tokens[1..])
    else None
  }

  /** The schema a reference names: a JSON Pointer in a URI fragment of the same document
      (section 6 of RFC 6901). Percent-encoded and external references name nothing here. */
  function Referenced(root: Json, reference: Json): Option<Json> {
    if !reference.Str? || reference.s == "" || reference.s[0] != '#' || '%' in reference.s then None
    else if reference.s == "#" then Some(root)
    else if reference.s[1] != '/' then None
    else Navigate(root, Split(reference.s[2..]))
  }

  /** A reference that the generator's own walk reads as the standard does. */
  predicate PlainReference(s: string) {
    "#/" <= s && '~' !in s && '%' !in s
  }

  lemma {:induction false} UnescapeIff(token: string)
    ensures Unescape(token) == Some(token) <==> '~' !in token
    ensures Unescape(token).Some? ==> |Unescape(token).value| <= |token|
    ensures Unescape(token).Some? && '~' in token ==> |Unescape(token).value| < |token|
  {
    if token != "" {
      assert token == [token[0]] + token[1..];
      if token[0] != '~' {
        UnescapeIff(token[1..]);
      } else if |token| >= 2 {
        UnescapeIff(token[2..]);
      }
    }
  }

  lemma {:induction false} PlainWalk(target: Json, tokens: seq<string>)
    requires forall t | t in tokens :: '~' !in t
    ensures Walk(target, tokens).Some? ==> Navigate(target, tokens) == Walk(target, tokens)
  {
    if tokens != [] && target.Obj? && tokens[0] in target.fields {
      UnescapeIff(tokens[0]);
      PlainWalk(target.fields[tokens[0]], tokens[1..]);
    }
  }

  lemma {:induction false} SplitKeepsTildes(s: string)
    ensures '~' in s <==> exists t :: t in Split(s) && '~' in t
  {
    if s == "" {
      assert Split(s) == [""];
    } else {
      var rest := Split(s[1..]);
      SplitKeepsTildes(s[1..]);
      assert rest == [rest[0]] + rest[1..];
      assert s == [s[0]] + s[1..];
      if s[0] == '/' {
        assert Split(s) == [""] + rest;
      } else {
        assert Split(s) == [[s[0]] + rest[0]] + rest[1..];
        assert Split(s)[0] == [s[0]] + rest[0];
        assert '~' in Split(s)[0] <==> s[0] == '~' || '~' in rest[0];
      }
    }
  }

  /** A document in which exactly the given path exists. */
  function Nest(tokens: seq<string>): Json {
    if tokens == [] then Null else Obj(map[tokens[0] := Nest(tokens[1..])])
  }

  lemma {:induction false} NestIsWalked(tokens: seq<string>)
    ensures Walk(Nest(tokens), tokens) == Some(Null)
    ensures (exists t :: t in tokens && '~' in t) ==> Navigate(Nest(tokens), tokens).None?
  {
    if tokens != [] {
      assert tokens == [tokens[0]] + tokens[1..];
      NestIsWalked(tokens[1..]);
      UnescapeIff(tokens[0]);
    }
  }

  lemma PlainReferenceAgrees(root: Json, reference: Json)
    requires reference.Str? && PlainReference(reference.s) && Target(root, reference).Some?
    ensures Referenced(root, reference) == Target(root, reference)
  {
    var path := reference.s[2..];
    SplitKeepsTildes(path);
    PlainWalk(root, Split(path));
    hide Walk, Navigate, Split;
  }

  /** The generator follows a reference to what the standard says it names, in every document
      in which it can follow it, exactly when the reference is plain: it starts with "#/" and
      escapes nothing. */
  lemma ReferencesAgreeIff(s: string)
    ensures (forall root | Target(root, Str(s)).Some? :: Referenced(root, Str(s)) == Target(root, Str(s)))
            <==> PlainReference(s)
  {
    hide Walk, Navigate, Split, Nest;
    if PlainReference(s) {
      forall root | Target(root, Str(s)).Some? ensures Referenced(root, Str(s)) == Target(root, Str(s)) {
        PlainReferenceAgrees(root, Str(s));
      }
    } else {
      var tokens := Split(RemovePrefix(s, "#/"));
      var root := Nest(tokens);
      NestIsWalked(tokens);
      assert Target(root, Str(s)) == Some(Null);
      NestIsObject(tokens);
      if "#/" <= s {
        SplitKeepsTildes(s[2..]);
        assert s == ['#', '/'] + s[2..];
      }
      assert Referenced(root, Str(s)) != Target(root, Str(s));
    }
  }

  lemma NestIsObject(tokens: seq<string>)
    ensures tokens != [] ==> Nest(tokens) != Null
  {
  }

  /** A plain reference yields the value of the schema the standard says it names. */
  lemma ReferencesYield(root: Json, node: Json, s: string, depth: nat)
    requires node.Obj? && Get(node.fields, "$ref") == Some(Str(s)) && PlainReference(s)
    ensures Target(root, Str(s)).Some? ==>
              Referenced(root, Str(s)).Some?
              && Generate(root, node, depth + 1) == Generate(root, Referenced(root, Str(s)).value, depth)
    ensures Target(root, Str(s)).None? ==> Generate(root, node, depth + 1).None?
  {
    if Target(root, Str(s)).Some? {
      PlainReferenceAgrees(root, Str(s));
    }
    hide Target, Referenced, TypedPlan, FirstNonNull;
  }

  /** Validity in the sense of JSON Schema (draft 2020-12): every keyword present must
      accept the value. `depth` bounds the height of the derivation; without enough of it
      nothing is valid. */
  ghost predicate Accepts(root: Json, schema: Json, v: Json, depth: nat)
    decreases depth
  {
    depth > 0 &&
    match schema
    case Bool(b) => b
    case Obj(fields) =>
      var k := KeywordsOf(fields);
      && FlatAccepts(k, v)
      && (k.reference.Some? ==> Referenced(root, k.reference.value).Some?
                                && Accepts(root, Referenced(root, k.reference.value).value, v, depth - 1))
      && (k.anyOf.Some? ==> k.anyOf.value.Arr?
                            && exists option | option in k.anyOf.value.items :: Accepts(root, option, v, depth - 1))
      && (v.Obj? ==> forall name | name in v.fields && name in PropertiesOf(k) ::
            Accepts(root, PropertiesOf(k)[name], v.fields[name], depth - 1))
      && (v.Obj? && k.additional.Some? ==> forall name | name in v.fields && name !in PropertiesOf(k) ::
            Accepts(root, k.additional.value, v.fields[name], depth - 1))
      && (v.Arr? && k.items.Some? ==> forall x | x in v.items :: Accepts(root, k.items.value, x, depth - 1))
    case _ => false
  }

  /** More depth only ever validates more. */
  lemma {:induction false} AcceptsGrows(root: Json, schema: Json, v: Json, depth: nat, more: nat)
    requires depth <= more && Accepts(root, schema, v, depth)
    ensures Accepts(root, schema, v, more)
    decreases depth
  {
    hide FlatAccepts, Referenced, KeywordsOf, PropertiesOf;
    var less, fewer: nat := more - 1, depth - 1;
    forall child, w | Accepts(root, child, w, fewer) ensures Accepts(root, child, w, less) {
      AcceptsGrows(root, child, w, fewer, less);
    }
  }

  // ---- the fragment

  /** The generator looks at one group of keywords of a schema. It is coherent when the
      others present accept what that group produces. */
  predicate Coherent(node: Json) {
    node.Obj? &&
    var k := KeywordsOf(node.fields);
    if k.reference.Some? then
      k == NO_KEYWORDS.(reference := k.reference)
      && (k.reference.value.Str? ==> PlainReference(k.reference.value.s))
    else if k.constant.Some? then
      k == NO_KEYWORDS.(constant := k.constant, kind := k.kind) && TypeAccepts(k.kind, k.constant.value)
    else if k.enumeration.Some? then
      k == NO_KEYWORDS.(enumeration := k.enumeration, kind := k.kind)
      && (k.enumeration.value.Arr? && k.enumeration.value.items != []
          ==> TypeAccepts(k.kind, k.enumeration.value.items[0]))
    else if k.anyOf.Some? then
      k == NO_KEYWORDS.(anyOf := k.anyOf)
      && (k.anyOf.value.Arr? ==> exists option :: option in k.anyOf.value.items && !IsNullType(option))
    else TypedCoherent(k)
  }

  predicate TypedCoherent(k: Keywords) {
    if IsKind(k.kind, KObject) || k.properties.Some? then
      (k.kind.Some? ==> IsKind(k.kind, KObject))
      && (k.additional.Some? && k.required.Some? && Names(k.required.value).Some?
          ==> Names(k.required.value).value <= PropertiesOf(k).Keys)
    else if IsKind(k.kind, KInteger) then k.minimum.Some? ==> IntegerMinimumFits(k.minimum.value)
    else if IsKind(k.kind, KNumber) then k.minimum.Some? ==> Amount(k.minimum.value).Some?
    else IsKind(k.kind, KArray) || IsKind(k.kind, KBoolean) || TypeAccepts(k.kind, Str(""))
  }

  predicate IntegerMinimumFits(minimum: Json) {
    match minimum
    case Int(_) => true
    case Num(x) => x <= 1.0 || x == x.Floor as real
    case _ => false
  }

  /** The first option that is not of the null type. */
  ghost predicate FirstOfSubstance(options: seq<Json>, child: Json) {
    exists i | 0 <= i < |options| ::
      options[i] == child && !IsNullType(child) && forall j | 0 <= j < i :: IsNullType(options[j])
  }

  /** The schemas that a value for this one is made of, read off the schema itself: what its
      reference names, its first option of substance, its required properties, its items. */
  ghost predicate Needs(root: Json, node: Json, child: Json) {
    node.Obj? &&
    var k := KeywordsOf(node.fields);
    if k.reference.Some? then Referenced(root, k.reference.value) == Some(child)
    else if k.constant.Some? || k.enumeration.Some? then false
    else if k.anyOf.Some? then k.anyOf.value.Arr? && FirstOfSubstance(k.anyOf.value.items, child)
    else if k.kind == Some(Str("object")) || k.properties.Some? then
      exists name | name in PropertiesOf(k) :: PropertiesOf(k)[name] == child && Demands(k, name)
    else
      && k.kind == Some(Str("array")) && k.minItems.Some? && IsPositive(k.minItems.value)
      && child == if k.items.Some? then k.items.value else Obj(map[])
  }

  /** A count that is more than zero; `true` counts as one. */
  predicate IsPositive(count: Json) {
    (count.Int? && count.n > 0) || count == Bool(true)
  }

  /** A property is demanded when it is listed as required, and always when nothing is listed. */
  predicate Demands(k: Keywords, name: string) {
    k.required.Some? ==> k.required.value.Arr? && Str(name) in k.required.value.items
  }

  ghost predicate NeedsChain(root: Json, node: Json, s: seq<Json>) {
    s != [] && s[0] == node && forall i | 0 < i < |s| :: Needs(root, s[i - 1], s[i])
  }

  /** Every schema that a value can be made of is coherent. */
  ghost predicate InFragment(root: Json, node: Json) {
    forall s | NeedsChain(root, node, s) :: Coherent(s[|s| - 1])
  }

  lemma FragmentHere(root: Json, node: Json)
    requires InFragment(root, node)
    ensures Coherent(node)
  {
    assert NeedsChain(root, node, [node]);
    assert Coherent([node][0]);
  }

  lemma FragmentBelow(root: Json, node: Json, child: Json)
    requires InFragment(root, node) && Needs(root, node, child)
    ensures InFragment(root, child)
  {
    hide Needs, Coherent;
    forall s | NeedsChain(root, child, s) ensures Coherent(s[|s| - 1]) {
      assert NeedsChain(root, node, [node] + s);
      assert ([node] + s)[|s|] == s[|s| - 1];
    }
  }

  lemma {:induction false} ChosenHasSubstance(options: seq<Json>, default: Json)
    requires FirstNonNull(options, default).Some? && exists option :: option in options && !IsNullType(option)
    ensures FirstOfSubstance(options, FirstNonNull(options, default).value)
  {
    if IsNullType(options[0]) {
      ChosenHasSubstance(options[1..], default);
      var child := FirstNonNull(options, default).value;
      var i :| 0 <= i < |options| - 1 && options[1..][i] == child && !IsNullType(child)
               && forall j | 0 <= j < i :: IsNullType(options[1..][j]);
      assert options[i + 1] == child;
      forall j | 0 <= j < i + 1 ensures IsNullType(options[j]) {
        assert j > 0 ==> options[j] == options[1..][j - 1];
      }
    } else {
      assert options[0] == FirstNonNull(options, default).value;
    }
  }

  lemma {:induction false} SubstanceIsUnique(options: seq<Json>, a: Json, b: Json)
    requires FirstOfSubstance(options, a) && FirstOfSubstance(options, b)
    ensures a == b
  {
  }

  /** For a coherent schema the generator can read, it calls itself on exactly what is needed. */
  lemma CallsAreNeeds(root: Json, node: Json, child: Json)
    requires Coherent(node) && Dispatch(root, node).Some?
    ensures child in Calls(root, node) <==> Needs(root, node, child)
  {
    var k := KeywordsOf(node.fields);
    CallsOfPlan(root, node);
    KindNames(k.kind);
    if k.reference.Some? {
      NonStringNamesNothing(root, k.reference.value);
      PlainReferenceAgrees(root, k.reference.value);
    } else if k.anyOf.Some? && k.constant.None? && k.enumeration.None? {
      var chosen := FirstNonNull(k.anyOf.value.items, k.anyOf.value.items[0]);
      ChosenHasSubstance(k.anyOf.value.items, k.anyOf.value.items[0]);
      if Needs(root, node, child) {
        SubstanceIsUnique(k.anyOf.value.items, chosen.value, child);
      }
    } else if k.constant.None? && k.enumeration.None? {
      TypedCallsAreNeeds(root, node, child);
    }
    hide Calls, KeywordsOf, Target, Referenced, FirstNonNull, IsKind, FirstOfSubstance, PlainReference, TypedCoherent,
      TypeAccepts, TypedPlan;
  }

  lemma TypedCallsAreNeeds(root: Json, node: Json, child: Json)
    requires node.Obj? && Dispatch(root, node).Some? && Dispatch(root, node) == TypedPlan(KeywordsOf(node.fields))
    requires var k := KeywordsOf(node.fields); k.reference.None? && k.constant.None? && k.enumeration.None? && k.anyOf.None?
    ensures child in Calls(root, node) <==> Needs(root, node, child)
  {
    var k := KeywordsOf(node.fields);
    CallsOfPlan(root, node);
    KindNames(k.kind);
    hide Calls, KeywordsOf, IsKind, Referenced, FirstOfSubstance, Dispatch, ObjectPlan;
    if IsKind(k.kind, KObject) || k.properties.Some? {
      var parts := ObjectPartsAre(k);
      if name :| name in parts && parts[name] == Some(child) {
        assert PropertiesOf(k)[name] == child && Demands(k, name);
      }
      if name :| name in PropertiesOf(k) && PropertiesOf(k)[name] == child && Demands(k, name) {
        assert parts[name] == Some(child);
      }
    }
    hide PropertiesOf, Demands;
  }

  lemma ObjectPartsAre(k: Keywords) returns (parts: map<string, Option<Json>>)
    requires ObjectPlan(k).Some?
    ensures ObjectPlan(k) == Some(Build(parts))
    ensures forall name | name in PropertiesOf(k) && Demands(k, name) ::
              name in parts && parts[name] == Some(PropertiesOf(k)[name])
    ensures forall name | name in parts && parts[name].Some? ::
              name in PropertiesOf(k) && Demands(k, name) && PropertiesOf(k)[name] == parts[name].value
  {
    parts := ObjectPlan(k).value.parts;
  }

  // ---- the generated value is valid

  lemma SamplesFit()
    ensures IsUuidText(Sample(Uuid))
    ensures IsDateTimeText(Sample(DateTime))
  {
    UuidSampleFits();
    DateSampleFits();
    hide IsUuidText;
    var date, time := "2026-01-01", "00:00:00";
    assert Sample(DateTime) == date + "T" + time + "Z";
    hide IsFullDate, IsPartialTime;
    JoinedFits(date, time);
  }

  lemma UuidSampleFits()
    ensures IsUuidText(Sample(Uuid))
  {
  }

  /** A full date and a partial time make a UTC timestamp. */
  lemma JoinedFits(date: string, time: string)
    requires IsFullDate(date) && IsPartialTime(time) && |date| == 10 && |time| == 8
    ensures IsDateTimeText(date + "T" + time + "Z")
  {
    var s := date + "T" + time + "Z";
    hide IsFullDate, IsPartialTime;
    assert s[..10] == date && s[11..19] == time;
    assert s[19..19] == "" && s[19..] == "Z";
    assert IsFraction(s[19..19]) && IsZone(s[19..]);
  }

  lemma DateSampleFits()
    ensures IsFullDate("2026-01-01")
    ensures IsPartialTime("00:00:00")
  {
    var d, t := "2026-01-01", "00:00:00";
    assert d[..4] == "2026" && d[5..7] == "01" && d[8..] == "01";
    assert t[..2] == "00" && t[3..5] == "00" && t[6..] == "00";
    TwoDigits('0', '0');
    TwoDigits('0', '1');
    TwoDigits('2', '0');
    TwoDigits('2', '6');
    assert "2026"[..3] == "202" && "202"[..2] == "20";
    assert Digits.Value("202") == 202;
    assert Digits.Value("2026") == 2026;
  }

  lemma TwoDigits(a: char, b: char)
    requires Digits.IsDigit(a) && Digits.IsDigit(b)
    ensures Digits.Value([a, b]) == Digits.DigitValue(a) * 10 + Digits.DigitValue(b)
  {
    assert [a, b][..1] == [a];
    assert [a][..0] == "";
    assert Digits.Value([a]) == Digits.DigitValue(a);
  }

  lemma FirstNonNullIsAnOption(options: seq<Json>, default: Json)
    requires FirstNonNull(options, default).Some?
    ensures FirstNonNull(options, default).value == default || FirstNonNull(options, default).value in options
  {
  }

  /** Outright values are accepted by every keyword beside them. */
  lemma GivenIsValid(root: Json, node: Json, v: Json, depth: nat)
    requires Coherent(node) && Dispatch(root, node) == Some(Give(v)) && depth > 0
    ensures Accepts(root, node, v, depth)
  {
    var k := KeywordsOf(node.fields);
    hide KeywordsOf, Target, TypedPlan, TypedCoherent;
    if k.constant.None? && k.enumeration.None? {
      PlainValueFits(k, v);
      hide FlatAccepts, FirstNonNull;
    } else {
      assert FlatAccepts(k, v);
    }
    hide TypeAccepts;
  }

  lemma NumericPlansFit(minimum: Json, v: Json)
    ensures IntegerPlan(minimum) == Some(Give(v)) && IntegerMinimumFits(minimum)
            ==> v.Int? && MinimumAccepts(Some(minimum), v)
    ensures NumberPlan(minimum) == Some(Give(v)) && Amount(minimum).Some?
            ==> v.Num? && MinimumAccepts(Some(minimum), v)
  {
  }

  /** The value a `type` produces on its own. */
  lemma PlainValueFits(k: Keywords, v: Json)
    requires TypedCoherent(k) && TypedPlan(k) == Some(Give(v))
    requires k.constant.None? && k.enumeration.None?
    ensures FlatAccepts(k, v) && !v.Obj? && !v.Arr?
  {
    hide KindOf, FormatOf, IsUuidText, IsDateTimeText, Sample;
    if IsKind(k.kind, KInteger) || IsKind(k.kind, KNumber) {
      NumericPlansFit(if k.minimum.Some? then k.minimum.value else Int(0), v);
    } else {
      SamplesFit();
    }
    hide IntegerPlan, NumberPlan, IntegerMinimumFits, Amount, Names;
  }

  /** A followed schema is the target of the only keyword present, or one of its options. */
  lemma FollowedAlone(root: Json, node: Json, schema: Json)
    requires Coherent(node) && Dispatch(root, node) == Some(Follow(schema))
    ensures var k := KeywordsOf(node.fields);
            || (k.reference.Some? && k == NO_KEYWORDS.(reference := k.reference)
                && Referenced(root, k.reference.value) == Some(schema))
            || (k.anyOf.Some? && k == NO_KEYWORDS.(anyOf := k.anyOf)
                && k.anyOf.value.Arr? && schema in k.anyOf.value.items)
  {
    hide KeywordsOf, Target, Referenced, IsKind, TypedCoherent, TypeAccepts, Sample, PlainReference;
    var k := KeywordsOf(node.fields);
    if k.reference.Some? {
      NonStringNamesNothing(root, k.reference.value);
      if k.reference.value.Str? {
        PlainReferenceAgrees(root, k.reference.value);
      }
    } else if k.anyOf.Some? && k.anyOf.value.Arr? && k.anyOf.value.items != [] {
      var items := k.anyOf.value.items;
      if FirstNonNull(items, items[0]).Some? {
        FirstNonNullIsAnOption(items, items[0]);
      }
    }
    hide FirstNonNull;
  }

  lemma NonStringNamesNothing(root: Json, reference: Json)
    ensures !reference.Str? ==> Target(root, reference).None?
  {
  }

  lemma FollowedIsValid(root: Json, node: Json, schema: Json, v: Json, depth: nat)
    requires Coherent(node) && Dispatch(root, node) == Some(Follow(schema)) && depth > 0
    requires Accepts(root, schema, v, depth - 1)
    ensures Accepts(root, node, v, depth)
  {
    hide KeywordsOf, Target, Referenced, Dispatch, Coherent, FlatAccepts;
    IsObject(node);
    FollowedAlone(root, node, schema);
    LoneKeywordAccepts(KeywordsOf(node.fields), v);
  }

  /** A reference or alternatives alone judge nothing without looking inside. */
  lemma LoneKeywordAccepts(k: Keywords, v: Json)
    requires k == NO_KEYWORDS.(reference := k.reference) || k == NO_KEYWORDS.(anyOf := k.anyOf)
    ensures FlatAccepts(k, v)
  {
  }

  lemma IsObject(node: Json)
    ensures Coherent(node) ==> node.Obj?
  {
  }

  lemma BuiltIsValid(root: Json, node: Json, parts: map<string, Option<Json>>, v: Json, depth: nat)
    requires Coherent(node) && Dispatch(root, node) == Some(Build(parts)) && depth > 0
    requires v.Obj? && v.fields.Keys == parts.Keys
    requires forall name | name in parts && parts[name].Some? ::
               Accepts(root, parts[name].value, v.fields[name], depth - 1)
    ensures Accepts(root, node, v, depth)
  {
    var k := KeywordsOf(node.fields);
    hide KeywordsOf, Target;
    assert FlatAccepts(k, v);
    assert forall name | name in parts :: parts[name] == Get(PropertiesOf(k), name);
  }

  lemma RepeatedIsValid(root: Json, node: Json, schema: Json, count: nat, v: Json, depth: nat)
    requires Coherent(node) && Dispatch(root, node) == Some(Repeat(schema, count)) && depth > 0
    requires v.Arr? && |v.items| == count && forall x | x in v.items :: Accepts(root, schema, x, depth - 1)
    ensures Accepts(root, node, v, depth)
  {
    var k := KeywordsOf(node.fields);
    hide KeywordsOf, Target;
    assert FlatAccepts(k, v);
  }

  lemma GenerateShape(root: Json, node: Json, depth: nat)
    requires Generate(root, node, depth).Some?
    ensures depth > 0 && Dispatch(root, node).Some?
    ensures var v := Generate(root, node, depth).value;
            match Dispatch(root, node).value
            case Give(value) => v == value
            case Follow(schema) => Some(v) == Generate(root, schema, depth - 1)
            case Build(parts) =>
              && v.Obj? && v.fields.Keys == parts.Keys
              && forall name | name in parts ::
                   if parts[name].Some? then Some(v.fields[name]) == Generate(root, parts[name].value, depth - 1)
                   else v.fields[name] == Str("fake")
            case Repeat(schema, count) =>
              && v.Arr? && |v.items| == count
              && forall x | x in v.items :: Some(x) == Generate(root, schema, depth - 1)
  {
    hide Dispatch;
  }

  /** Whatever a nested call gives is valid for the schema it was made for. */
  ghost predicate ChildrenValid(root: Json, node: Json, depth: nat) {
    forall child, v | child in Calls(root, node) && Generate(root, child, depth) == Some(v) ::
      Accepts(root, child, v, depth)
  }

  lemma ShapeIsValid(root: Json, node: Json, depth: nat)
    requires Coherent(node) && Generate(root, node, depth).Some?
    requires depth > 0 ==> ChildrenValid(root, node, depth - 1)
    ensures Accepts(root, node, Generate(root, node, depth).value, depth)
  {
    hide Dispatch, Calls, Coherent, Accepts, Generate;
    GenerateShape(root, node, depth);
    CallsOfPlan(root, node);
    var v := Generate(root, node, depth).value;
    match Dispatch(root, node)
    case Some(Give(value)) => GivenIsValid(root, node, v, depth);
    case Some(Follow(schema)) => FollowedIsValid(root, node, schema, v, depth);
    case Some(Build(parts)) => BuiltIsValid(root, node, parts, v, depth);
    case Some(Repeat(schema, count)) => RepeatedIsValid(root, node, schema, count, v, depth);
  }

  /** In the fragment, whatever is generated is valid. */
  lemma {:induction false} GeneratedIsValid(root: Json, node: Json, depth: nat)
    requires InFragment(root, node) && Generate(root, node, depth).Some?
    ensures Accepts(root, node, Generate(root, node, depth).value, depth)
    decreases depth
  {
    hide Dispatch, Calls, Coherent, InFragment, Accepts, Generate;
    FragmentHere(root, node);
    if depth > 0 {
      forall child, v | child in Calls(root, node) && Generate(root, child, depth - 1) == Some(v)
        ensures Accepts(root, child, v, depth - 1)
      {
        GenerateShape(root, node, depth);
        CallsAreNeeds(root, node, child);
        FragmentBelow(root, node, child);
        GeneratedIsValid(root, child, depth - 1);
      }
    }
    ShapeIsValid(root, node, depth);
  }

  /** An output serves a schema when it is an object that is valid for it, or wraps a valid
      value that is no object under `result`. */
  ghost predicate Serves(root: Json, out: Json, depth: nat) {
    && out.Obj?
    && (Accepts(root, root, out, depth)
        || (out.fields.Keys == {"result"} && !out.fields["result"].Obj?
            && Accepts(root, root, out.fields["result"], depth)))
  }

  /** For a schema in the fragment an output exists exactly when the call chains fit the
      recursion limit, and then it serves the schema. */
  lemma OutputIsValid(root: Json, depth: nat)
    requires InFragment(root, root)
    ensures FakeOutput(Some(root), depth).Some? <==> Bounded(root, root, depth)
    ensures FakeOutput(Some(root), depth).Some? ==> Serves(root, FakeOutput(Some(root), depth).value, depth)
  {
    hide Generate, Accepts, Bounded, InFragment;
    GenerateSucceedsIff(root, root, depth);
    if Generate(root, root, depth).Some? {
      GeneratedIsValid(root, root, depth);
    }
  }

  /** The keywords a value depends on have the form the generator reads: a reference leads
      through objects, lists are not empty, and counts and bounds are numbers. */
  ghost predicate Readable(root: Json, node: Json) {
    node.Obj? &&
    var k := KeywordsOf(node.fields);
    if k.reference.Some? then Target(root, k.reference.value).Some?
    else if k.constant.Some? then true
    else if k.enumeration.Some? then k.enumeration.value.Arr? && k.enumeration.value.items != []
    else if k.anyOf.Some? then
      k.anyOf.value.Arr? && exists child :: FirstOfSubstance(k.anyOf.value.items, child) && child.Obj?
    else if k.kind == Some(Str("object")) || k.properties.Some? then
      && (k.properties.Some? ==> k.properties.value.Obj?)
      && (k.required.Some? ==> k.required.value.Arr? && forall name | name in k.required.value.items :: name.Str?)
    else k.kind == Some(Str("array")) && k.minItems.Some? ==> k.minItems.value.Int? || k.minItems.value.Bool?
  }

  lemma ReadableChoice(options: seq<Json>)
    requires exists child :: FirstOfSubstance(options, child) && child.Obj?
    ensures options != [] && FirstNonNull(options, options[0]).Some?
  {
    var child :| FirstOfSubstance(options, child) && child.Obj?;
    var i :| 0 <= i < |options| && options[i] == child && !IsNullType(child)
             && forall j | 0 <= j < i :: IsNullType(options[j]);
    ChoiceOf(options, options[0], i);
  }

  lemma ReadableDispatches(root: Json, node: Json)
    requires Coherent(node) && Readable(root, node)
    ensures Dispatch(root, node).Some?
  {
    hide KeywordsOf, Target, FirstNonNull, FirstOfSubstance, IsKind, PropertiesOf, TypeAccepts, PlainReference, KindOf;
    var k := KeywordsOf(node.fields);
    KindNames(k.kind);
    if k.reference.None? && k.constant.None? && k.enumeration.None? && k.anyOf.Some? {
      ReadableChoice(k.anyOf.value.items);
    }
  }

  lemma {:induction false} ChainIsNeeds(root: Json, node: Json, s: seq<Json>)
    requires InFragment(root, node) && ChainFrom(root, node, s)
    requires forall t | NeedsChain(root, node, t) :: Readable(root, t[|t| - 1])
    ensures NeedsChain(root, node, s) && Dispatch(root, s[|s| - 1]).Some?
  {
    hide Dispatch, Calls, Needs, Coherent, Readable;
    var n := |s| - 1;
    if n > 0 {
      assert ChainFrom(root, node, s[..n]);
      ChainIsNeeds(root, node, s[..n]);
      assert s[n] in Calls(root, s[n - 1]);
      assert Coherent(s[..n][n - 1]);
      CallsAreNeeds(root, s[n - 1], s[n]);
      assert forall i | 0 < i < n :: Needs(root, s[..n][i - 1], s[..n][i]);
    }
    assert Coherent(s[n]) && Readable(root, s[n]);
    ReadableDispatches(root, s[n]);
  }

  /** Hence every schema of the fragment that can be read and whose needs never lead back is
      served, under any limit of at least the number of its parts. All three are properties
      of the schema, not of what the generator does with it. */
  lemma AcyclicSchemasAreServed(root: Json, depth: nat)
    requires InFragment(root, root)
    requires forall s | NeedsChain(root, root, s) :: Readable(root, s[|s| - 1]) && Distinct(s)
    requires depth >= |Schemas(root)|
    ensures FakeOutput(Some(root), depth).Some? && Serves(root, FakeOutput(Some(root), depth).value, depth)
  {
    hide Generate, Accepts, InFragment, Schemas, Dispatch, Calls, Readable, NeedsChain;
    forall s | ChainFrom(root, root, s) ensures |s| <= depth && Dispatch(root, s[|s| - 1]).Some? {
      ChainIsNeeds(root, root, s);
      RootIsSchema(root);
      ChainStaysInside(root, s);
      DistinctFit(s, Schemas(root));
    }
    OutputIsValid(root, depth);
  }

  /** An integer schema with a fractional minimum: the value generated is valid exactly when
      the minimum is at most one or a whole number. */
  lemma IntegerMinimumIff(root: Json, node: Json, x: real, depth: nat)
    requires node.Obj? && depth > 0
    requires KeywordsOf(node.fields)
             == NO_KEYWORDS.(kind := Some(Str("integer")), minimum := Some(Num(x)))
    ensures Generate(root, node, depth).Some?
    ensures Accepts(root, node, Generate(root, node, depth).value, depth) <==> x <= 1.0 || x == x.Floor as real
  {
    var k := KeywordsOf(node.fields);
    assert IsKind(k.kind, KInteger);
    hide KeywordsOf;
    if x <= 1.0 || x == x.Floor as real {
      GivenIsValid(root, node, Generate(root, node, depth).value, depth);
    } else {
      assert !MinimumAccepts(k.minimum, Int(Truncate(x)));
    }
  }

  // ---- the gateway

  datatype Request = Request(modelId: string, schema: Option<Json>, timeout: real)

  datatype Reply = Replied(modelId: string, output: Json) | TimedOut | Raised(code: string) | GenerationFailed

  /** The network-free gateway: it remembers every request, and answers with its fixed
      output, its configured error, or a generated value. */
  class FakeModelGateway {
    const structuredOutput: Option<Json>
    const latency: real
    const error: Option<string>
    var requests: seq<Request>

    constructor (structuredOutput: Option<Json>, latency: real, error: Option<string>)
      ensures this.structuredOutput == structuredOutput && this.latency == latency && this.error == error
      ensures requests == []
    {
      this.structuredOutput, this.latency, this.error := structuredOutput, latency, error;
      requests := [];
    }

    method Answer(request: Request, limit: nat) returns (reply: Reply)
      modifies this
      ensures requests == old(requests) + [request]
      ensures reply.TimedOut? <==> request.timeout <= latency
      ensures !reply.TimedOut? && error.Some? ==> reply == Raised(error.value)
      ensures !reply.TimedOut? && error.None? && structuredOutput.Some?
              ==> reply == Replied(request.modelId, structuredOutput.value)
      ensures !reply.TimedOut? && error.None? && structuredOutput.None?
              ==> if request.schema.None? then reply == Replied(request.modelId, Obj(map["result" := Str("fake")]))
                  else if FakeOutput(request.schema, limit).Some?
                  then reply == Replied(request.modelId, FakeOutput(request.schema, limit).value)
                  else reply == GenerationFailed
    {
      requests := requests + [request];
      if request.timeout <= latency {
        return TimedOut;
      }
      if error.Some? {
        return Raised(error.value);
      }
      if structuredOutput.Some? {
        return Replied(request.modelId, structuredOutput.value);
      }
      var output := FakeOutput(request.schema, limit);
      return if output.Some? then Replied(request.modelId, output.value) else GenerationFailed;
    }
  }
}
