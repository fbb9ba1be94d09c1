/** Schemas written in a small language, what it means for a value to conform to one, and
    that the generator satisfies every consistent one of them. */
module FakerShapes {
  import opened Basics
  import opened JsonModel
  import opened SchemaSemantics
  import opened Faker

  // ---------------------------------------------------------------------------
  // The language
  // ---------------------------------------------------------------------------

  datatype Bounds = Bounds(least: Option<int>, most: Option<int>)

  datatype Shape =
    | Ints(bounds: Bounds)
    | Texts(bounds: Bounds)
    | Flags
    | Nothing
    | Among(values: seq<Json>)
    | Exactly(value: Json)
    | Lists(item: Shape, bounds: Bounds)
    | Records(fields: seq<Field>, required: seq<string>)
    | Either(variants: seq<Shape>)

  datatype Field = Field(name: string, shape: Shape)

  function Opt(key: string, bound: Option<int>): seq<Member> {
    match bound
    case None => []
    case Some(n) => [Member(key, Int(n))]
  }

  function Kind(name: string): Member {
    Member("type", Str(name))
  }

  /** The schema as it is written down. */
  function SchemaOf(shape: Shape): (s: Json)
    ensures s.Obj?
    decreases shape, 0
  {
    match shape
    case Ints(b) => Obj([Kind("integer")] + Opt("minimum", b.least) + Opt("maximum", b.most))
    case Texts(b) => Obj([Kind("string")] + Opt("minLength", b.least) + Opt("maxLength", b.most))
    case Flags => Obj([Kind("boolean")])
    case Nothing => Obj([Kind("null")])
    case Among(values) => Obj([Member("enum", Arr(values))])
    case Exactly(value) => Obj([Member("const", value)])
    case Lists(item, b) =>
      Obj([Kind("array"), Member("items", SchemaOf(item))] + Opt("minItems", b.least) + Opt("maxItems", b.most))
    case Records(fields, required) =>
      Obj([Kind("object"), Member("properties", Obj(FieldSchemas(fields))), Member("required", Arr(Texted(required)))])
    case Either(variants) => Obj([Member("anyOf", Arr(VariantSchemas(variants)))])
  }

  function FieldSchemas(fields: seq<Field>): (members: seq<Member>)
    ensures |members| == |fields|
    ensures forall i :: 0 <= i < |fields| ==> members[i] == Member(fields[i].name, SchemaOf(fields[i].shape))
    decreases fields, 1
  {
    if fields == [] then [] else [Member(fields[0].name, SchemaOf(fields[0].shape))] + FieldSchemas(fields[1..])
  }

  function VariantSchemas(variants: seq<Shape>): (schemas: seq<Json>)
    ensures |schemas| == |variants|
    ensures forall i :: 0 <= i < |variants| ==> schemas[i] == SchemaOf(variants[i])
    decreases variants, 1
  {
    if variants == [] then [] else [SchemaOf(variants[0])] + VariantSchemas(variants[1..])
  }

  function Texted(names: seq<string>): (items: seq<Json>)
    ensures |items| == |names| && forall i :: 0 <= i < |names| ==> items[i] == Str(names[i])
  {
    if names == [] then [] else [Str(names[0])] + Texted(names[1..])
  }

  // ---------------------------------------------------------------------------
  // What conforms
  // ---------------------------------------------------------------------------

  predicate Within(b: Bounds, n: int) {
    (b.least.Some? ==> b.least.value <= n) && (b.most.Some? ==> n <= b.most.value)
  }

  predicate Conforms(shape: Shape, v: Json)
    decreases shape, 0
  {
    match shape
    case Ints(b) => v.Int? && Within(b, v.n)
    case Texts(b) => v.Str? && Within(b, |v.text|)
    case Flags => v.Bool?
    case Nothing => v.Null?
    case Among(values) => v in values
    case Exactly(value) => v == value
    case Lists(item, b) =>
      v.Arr? && Within(b, |v.items|) && forall i :: 0 <= i < |v.items| ==> Conforms(item, v.items[i])
    case Records(fields, required) =>
      && v.Obj?
      && (forall i :: 0 <= i < |required| ==> Find(v.members, required[i]).Some?)
      && (forall i :: 0 <= i < |fields| && Find(v.members, fields[i].name).Some? ==>
            Conforms(fields[i].shape, Find(v.members, fields[i].name).value))
    case Either(variants) => exists i :: 0 <= i < |variants| && Conforms(variants[i], v)
  }

  // ---------------------------------------------------------------------------
  // What is consistent
  // ---------------------------------------------------------------------------

  /** 64-bit bounds; the declared or default least value is not above the greatest. */
  predicate IntegerBounds(b: Bounds) {
    && (b.least.Some? ==> I64_MIN <= b.least.value <= I64_MAX)
    && (b.most.Some? ==> I64_MIN <= b.most.value <= I64_MAX)
    && (b.most.Some? ==> (if b.least.Some? then b.least.value else 0) <= b.most.value)
  }

  /** Sizes: at least one unless declared, and never above the generator's cap. */
  predicate SizeBounds(b: Bounds, cap: nat) {
    && (b.least.Some? ==> 0 <= b.least.value <= cap)
    && (b.most.Some? ==> (if b.least.Some? then b.least.value else 1) <= b.most.value <= U64_MAX)
  }

  predicate Named(fields: seq<Field>, name: string) {
    exists j :: 0 <= j < |fields| && fields[j].name == name
  }

  predicate Consistent(shape: Shape)
    decreases shape, 0
  {
    match shape
    case Ints(b) => IntegerBounds(b)
    case Texts(b) => SizeBounds(b, 10000)
    case Flags => true
    case Nothing => true
    case Among(values) => values != []
    case Exactly(_) => true
    case Lists(item, b) => SizeBounds(b, 100) && Consistent(item)
    case Records(fields, required) =>
      && (forall i, j :: 0 <= i < j < |fields| ==> fields[i].name != fields[j].name)
      && (forall i :: 0 <= i < |fields| ==> Consistent(fields[i].shape))
      && (forall i :: 0 <= i < |required| ==> Named(fields, required[i]))
    case Either(variants) => variants != [] && forall i :: 0 <= i < |variants| ==> Consistent(variants[i])
  }

  /** No more than `n` levels of lists, records and choices. */
  predicate Shallow(shape: Shape, n: nat)
    decreases shape, 0
  {
    match shape
    case Lists(item, _) => n > 0 && Shallow(item, n - 1)
    case Records(fields, _) => forall i :: 0 <= i < |fields| ==> n > 0 && Shallow(fields[i].shape, n - 1)
    case Either(variants) => forall i :: 0 <= i < |variants| ==> n > 0 && Shallow(variants[i], n - 1)
    case _ => true
  }

  // ---------------------------------------------------------------------------
  // Looking keywords up
  // ---------------------------------------------------------------------------

  predicate OnlyKeys(members: seq<Member>, keys: set<string>) {
    forall i :: 0 <= i < |members| ==> members[i].key in keys
  }

  lemma {:induction false} AbsentKey(members: seq<Member>, keys: set<string>, key: string)
    requires OnlyKeys(members, keys) && key !in keys
    ensures Find(members, key).None?
  {
  }

  lemma {:induction false} FindInSum(a: seq<Member>, b: seq<Member>, key: string)
    ensures Find(a + b, key) == if Find(a, key).Some? then Find(a, key) else Find(b, key)
  {
    if a == [] {
      assert a + b == b;
    } else {
      assert (a + b)[1..] == a[1..] + b;
      FindInSum(a[1..], b, key);
    }
  }

  lemma {:induction false} FindOpt(name: string, bound: Option<int>, key: string)
    ensures Find(Opt(name, bound), key)
         == if key == name && bound.Some? then Some(Int(bound.value)) else None
  {
    if bound.Some? {
      assert Opt(name, bound)[1..] == [];
    }
  }

  function Bound(b: Option<int>): Option<Json> {
    match b
    case None => None
    case Some(n) => Some(Int(n))
  }

  /** Some leading members and two optional bounds. */
  lemma {:induction false} Lookups(head: seq<Member>, lo: string, hi: string, b: Bounds, key: string)
    requires lo != hi && Find(head, lo).None? && Find(head, hi).None?
    ensures
      var members := head + Opt(lo, b.least) + Opt(hi, b.most);
      Find(members, key)
      == if key == lo then Bound(b.least) else if key == hi then Bound(b.most) else Find(head, key)
  {
    FindInSum(head + Opt(lo, b.least), Opt(hi, b.most), key);
    FindInSum(head, Opt(lo, b.least), key);
    FindOpt(lo, b.least, key);
    FindOpt(hi, b.most, key);
  }

  lemma {:induction false} KeysOfSum(head: seq<Member>, lo: string, hi: string, b: Bounds, keys: set<string>)
    requires OnlyKeys(head, keys) && lo in keys && hi in keys
    ensures OnlyKeys(head + Opt(lo, b.least) + Opt(hi, b.most), keys)
  {
    var members := head + Opt(lo, b.least) + Opt(hi, b.most);
    forall i | 0 <= i < |members| ensures members[i].key in keys {
    }
  }

  // ---------------------------------------------------------------------------
  // Consistent schemas are fair
  // ---------------------------------------------------------------------------

  const PERMITTED: set<string> := {
    "type", "minimum", "maximum", "minLength", "maxLength", "items", "minItems", "maxItems", "properties", "required"
  }

  /** Nothing is pinned, combined or listed, and every keyword is understood. */
  predicate Quiet(s: Json) {
    Pinned(s).None? && Get(s, "anyOf").None? && Plain(s)
  }

  lemma {:induction false} PermittedIsUnderstood(key: string)
    requires key in PERMITTED
    ensures !Foreign(key)
  {
  }

  lemma {:induction false} LacksValues(members: seq<Member>)
    requires OnlyKeys(members, PERMITTED)
    ensures Find(members, "example").None? && Find(members, "examples").None? && Find(members, "default").None?
    ensures Find(members, "enum").None? && Find(members, "const").None?
  {
    AbsentKey(members, PERMITTED, "example");
    AbsentKey(members, PERMITTED, "examples");
    AbsentKey(members, PERMITTED, "default");
    AbsentKey(members, PERMITTED, "enum");
    AbsentKey(members, PERMITTED, "const");
  }

  lemma {:induction false} LacksCombinations(members: seq<Member>)
    requires OnlyKeys(members, PERMITTED)
    ensures Find(members, "not").None? && Find(members, "allOf").None?
    ensures Find(members, "oneOf").None? && Find(members, "anyOf").None?
  {
    AbsentKey(members, PERMITTED, "not");
    AbsentKey(members, PERMITTED, "allOf");
    AbsentKey(members, PERMITTED, "oneOf");
    AbsentKey(members, PERMITTED, "anyOf");
  }

  lemma {:induction false} LacksNumbers(members: seq<Member>)
    requires OnlyKeys(members, PERMITTED)
    ensures Find(members, "exclusiveMinimum").None? && Find(members, "exclusiveMaximum").None?
    ensures Find(members, "multipleOf").None?
  {
    AbsentKey(members, PERMITTED, "exclusiveMinimum");
    AbsentKey(members, PERMITTED, "exclusiveMaximum");
    AbsentKey(members, PERMITTED, "multipleOf");
  }

  lemma {:induction false} LacksRest(members: seq<Member>)
    requires OnlyKeys(members, PERMITTED)
    ensures Find(members, "uniqueItems").None? && Find(members, "additionalProperties").None?
    ensures Find(members, "format").None? && Find(members, "pattern").None?
  {
    AbsentKey(members, PERMITTED, "uniqueItems");
    AbsentKey(members, PERMITTED, "additionalProperties");
    AbsentKey(members, PERMITTED, "format");
    AbsentKey(members, PERMITTED, "pattern");
  }

  lemma {:induction false} PermittedIsQuiet(members: seq<Member>)
    requires OnlyKeys(members, PERMITTED)
    ensures Quiet(Obj(members))
  {
    forall i | 0 <= i < |members| ensures !Foreign(members[i].key) {
      PermittedIsUnderstood(members[i].key);
    }
    LacksValues(members);
    LacksCombinations(members);
  }

  lemma {:induction false} TypedIsFair(s: Json, name: string, depth: nat)
    requires Quiet(s) && Legible(s) && SchemaType(s) == Some(name) && depth <= MAX_DEPTH
    requires FairType(s, name, depth)
    ensures Fair(s, depth)
  {
    FairByType(s, depth);
  }

  /** A leading type and two optional bounds are legible. */
  lemma {:induction false} BoundedIsLegible(head: seq<Member>, lo: string, hi: string, b: Bounds)
    requires Legible(Obj(head)) && lo in PERMITTED && hi in PERMITTED
    requires lo != "items" && lo != "properties" && lo != "required" && lo != "type"
    requires hi != "items" && hi != "properties" && hi != "required" && hi != "type"
    ensures Legible(Obj(head + Opt(lo, b.least) + Opt(hi, b.most)))
  {
    var members := head + Opt(lo, b.least) + Opt(hi, b.most);
    forall i | 0 <= i < |members| ensures LegibleKeyword(members[i]) {
      if i < |head| {
        assert members[i] == head[i];
      } else {
        assert members[i].key == lo || members[i].key == hi;
      }
    }
  }

  lemma {:induction false} KindIsLegible(name: string)
    ensures LegibleKeyword(Kind(name)) && Legible(Obj([Kind(name)]))
  {
  }

  lemma {:induction false} FindKind(name: string, key: string)
    ensures Find([Kind(name)], key) == if key == "type" then Some(Str(name)) else None
  {
    assert [Kind(name)][1..] == [];
  }

  lemma {:induction false} IntsFair(b: Bounds, depth: nat)
    requires IntegerBounds(b) && depth <= MAX_DEPTH
    ensures Fair(SchemaOf(Ints(b)), depth)
  {
    var head, s := [Kind("integer")], SchemaOf(Ints(b));
    IntsLookups(b);
    KeysOfSum(head, "minimum", "maximum", b, PERMITTED);
    PermittedIsQuiet(s.members);
    KindIsLegible("integer");
    BoundedIsLegible(head, "minimum", "maximum", b);
    LacksNumbers(s.members);
    IntsAgree(s, b);
    TypedIsFair(s, "integer", depth);
  }

  lemma {:induction false} IntsLookups(b: Bounds)
    ensures
      var members := SchemaOf(Ints(b)).members;
      && Find(members, "type") == Some(Str("integer"))
      && Find(members, "minimum") == Bound(b.least) && Find(members, "maximum") == Bound(b.most)
  {
    var head := [Kind("integer")];
    FindKind("integer", "minimum");
    FindKind("integer", "maximum");
    FindKind("integer", "type");
    Lookups(head, "minimum", "maximum", b, "minimum");
    Lookups(head, "minimum", "maximum", b, "maximum");
    Lookups(head, "minimum", "maximum", b, "type");
  }

  lemma {:induction false} IntsAgree(s: Json, b: Bounds)
    requires IntegerBounds(b) && Get(s, "minimum") == Bound(b.least) && Get(s, "maximum") == Bound(b.most)
    requires Get(s, "exclusiveMinimum").None? && Get(s, "exclusiveMaximum").None? && Get(s, "multipleOf").None?
    ensures IntegersAgree(s)
  {
  }

  lemma {:induction false} SizesAgreeFrom(s: Json, lo: string, hi: string, b: Bounds, cap: nat)
    requires SizeBounds(b, cap) && 1 <= cap <= U64_MAX && Get(s, lo) == Bound(b.least) && Get(s, hi) == Bound(b.most)
    ensures SizesAgree(s, lo, hi, cap)
  {
  }

  lemma {:induction false} TextsLookups(b: Bounds)
    ensures
      var members := SchemaOf(Texts(b)).members;
      && Find(members, "type") == Some(Str("string"))
      && Find(members, "minLength") == Bound(b.least) && Find(members, "maxLength") == Bound(b.most)
  {
    var head := [Kind("string")];
    FindKind("string", "minLength");
    FindKind("string", "maxLength");
    FindKind("string", "type");
    Lookups(head, "minLength", "maxLength", b, "minLength");
    Lookups(head, "minLength", "maxLength", b, "maxLength");
    Lookups(head, "minLength", "maxLength", b, "type");
  }

  lemma {:induction false} TextsFair(b: Bounds, depth: nat)
    requires SizeBounds(b, MAX_LENGTH) && depth <= MAX_DEPTH
    ensures Fair(SchemaOf(Texts(b)), depth)
  {
    var head, s := [Kind("string")], SchemaOf(Texts(b));
    TextsLookups(b);
    KeysOfSum(head, "minLength", "maxLength", b, PERMITTED);
    PermittedIsQuiet(s.members);
    KindIsLegible("string");
    BoundedIsLegible(head, "minLength", "maxLength", b);
    SizesAgreeFrom(s, "minLength", "maxLength", b, MAX_LENGTH);
    LacksRest(s.members);
    assert FairScalar(s, "string");
    TypedIsFair(s, "string", depth);
  }

  lemma {:induction false} FlagsFair(depth: nat)
    requires depth <= MAX_DEPTH
    ensures Fair(SchemaOf(Flags), depth)
  {
    var s := SchemaOf(Flags);
    FindKind("boolean", "type");
    PermittedIsQuiet(s.members);
    KindIsLegible("boolean");
    TypedIsFair(s, "boolean", depth);
  }

  lemma {:induction false} NothingFair(depth: nat)
    requires depth <= MAX_DEPTH
    ensures Fair(SchemaOf(Nothing), depth)
  {
    var s := SchemaOf(Nothing);
    FindKind("null", "type");
    PermittedIsQuiet(s.members);
    KindIsLegible("null");
    assert TypeOk(JsonSchema, s.members, Null);
    TypedIsFair(s, "null", depth);
  }

  // ---------------------------------------------------------------------------
  // Listed values
  // ---------------------------------------------------------------------------

  lemma {:induction false} SoleMember(key: string, value: Json, probe: string)
    ensures Find([Member(key, value)], probe) == if probe == key then Some(value) else None
  {
    assert [Member(key, value)][1..] == [];
  }

  /** Every keyword but one is missing. */
  ghost predicate Sole(members: seq<Member>, key: string) {
    |members| == 1 && members[0].key == key && forall k :: k != key ==> Find(members, k).None?
  }

  lemma {:induction false} SoleIs(key: string, value: Json)
    ensures Sole([Member(key, value)], key) && Find([Member(key, value)], key) == Some(value)
  {
    forall k ensures Find([Member(key, value)], k) == if k == key then Some(value) else None {
      SoleMember(key, value, k);
    }
  }

  lemma {:induction false} SoleHasNoChildren(members: seq<Member>, key: string, v: Json)
    requires Sole(members, key) && (key == "enum" || key == "const" || key == "anyOf")
    ensures TypeOk(JsonSchema, members, v) && ChildrenOk(JsonSchema, Basic, Obj(members), v)
  {
    var s := Obj(members);
    assert Get(s, "items").None? && Get(s, "properties").None? && Get(s, "additionalProperties").None?;
    assert ItemsOk(JsonSchema, Basic, s, v) && PropertiesOk(JsonSchema, Basic, s, v) && AdditionalOk(JsonSchema, Basic, s, v);
  }

  lemma {:induction false} SoleIsUncombined(members: seq<Member>, key: string, v: Json)
    requires Sole(members, key) && (key == "enum" || key == "const")
    ensures CombinationsOk(JsonSchema, Basic, Obj(members), v) && Uncombined(Obj(members)) && Get(Obj(members), "anyOf").None?
  {
    var s := Obj(members);
    assert Get(s, "not").None? && Get(s, "allOf").None? && Get(s, "anyOf").None? && Get(s, "oneOf").None?;
    UncombinedPasses(s, v);
  }

  lemma {:induction false} SoleIsUnbounded(members: seq<Member>, key: string, v: Json)
    requires Sole(members, key) && (key == "enum" || key == "const" || key == "anyOf")
    ensures BoundsOk(members, v) && Unbounded(members)
  {
    assert Find(members, "minimum").None? && Find(members, "maximum").None?;
    assert Find(members, "exclusiveMinimum").None? && Find(members, "exclusiveMaximum").None?;
    assert Find(members, "multipleOf").None? && Find(members, "uniqueItems").None?;
    assert Find(members, "minLength").None? && Find(members, "maxLength").None?;
    assert Find(members, "minItems").None? && Find(members, "maxItems").None?;
  }

  lemma {:induction false} SoleIsUnderstood(members: seq<Member>, key: string)
    requires Sole(members, key) && (key == "enum" || key == "const" || key == "anyOf")
    ensures Understood(members) && Pinned(Obj(members)).None? && Find(members, "required").None?
  {
    assert Get(Obj(members), "example").None? && Get(Obj(members), "examples").None? && Get(Obj(members), "default").None?;
  }

  /** A schema with one keyword accepts what that keyword does. */
  lemma {:induction false} SoleAccepts(members: seq<Member>, key: string, v: Json)
    requires Sole(members, key) && (key == "enum" || key == "const")
    ensures Valid(Obj(members), v) <==> EnumOk(members, v) && ConstOk(members, v)
  {
    SoleHasNoChildren(members, key, v);
    SoleIsUncombined(members, key, v);
    SoleIsUnbounded(members, key, v);
    SoleIsUnderstood(members, key);
    BasicOnWhole(members, v);
  }

  lemma {:induction false} ListedOk(members: seq<Member>, values: seq<Json>, v: Json)
    requires Sole(members, "enum") && Find(members, "enum") == Some(Arr(values))
    ensures EnumOk(members, v) && ConstOk(members, v) <==> v in values
  {
    assert Find(members, "const").None?;
  }

  lemma {:induction false} FixedOk(members: seq<Member>, value: Json, v: Json)
    requires Sole(members, "const") && Find(members, "const") == Some(value)
    ensures EnumOk(members, v) && ConstOk(members, v) <==> v == value
  {
    assert Find(members, "enum").None?;
  }

  /** A schema that only lists values accepts exactly those. */
  lemma {:induction false} AmongAccepts(s: Json, values: seq<Json>, v: Json)
    requires s == Obj([Member("enum", Arr(values))])
    ensures Valid(s, v) <==> v in values
  {
    SoleIs("enum", Arr(values));
    SoleAccepts(s.members, "enum", v);
    ListedOk(s.members, values, v);
  }

  lemma {:induction false} ExactlyAccepts(s: Json, value: Json, v: Json)
    requires s == Obj([Member("const", value)])
    ensures Valid(s, v) <==> v == value
  {
    SoleIs("const", value);
    SoleAccepts(s.members, "const", v);
    FixedOk(s.members, value, v);
  }

  lemma {:induction false} ChosenIsFair(s: Json, key: string, depth: nat)
    requires s.Obj? && Sole(s.members, key) && (key == "enum" || key == "const") && Legible(s) && depth <= MAX_DEPTH
    requires FairChoice(s, depth)
    ensures Fair(s, depth)
  {
    SoleIsUnderstood(s.members, key);
    SoleIsUncombined(s.members, key, Null);
  }

  lemma {:induction false} AmongFair(values: seq<Json>, depth: nat)
    requires values != [] && depth <= MAX_DEPTH
    ensures Fair(SchemaOf(Among(values)), depth)
  {
    var s := SchemaOf(Among(values));
    SoleIs("enum", Arr(values));
    SoleIsUnderstood(s.members, "enum");
    forall i | 0 <= i < |values| ensures Valid(s, values[i]) {
      AmongAccepts(s, values, values[i]);
    }
    assert LegibleKeyword(s.members[0]);
    ChosenIsFair(s, "enum", depth);
  }

  lemma {:induction false} ExactlyFair(value: Json, depth: nat)
    requires depth <= MAX_DEPTH
    ensures Fair(SchemaOf(Exactly(value)), depth)
  {
    var s := SchemaOf(Exactly(value));
    SoleIs("const", value);
    SoleIsUnderstood(s.members, "const");
    ExactlyAccepts(s, value, value);
    assert Find(s.members, "enum").None?;
    assert LegibleKeyword(s.members[0]);
    ChosenIsFair(s, "const", depth);
  }

  // ---------------------------------------------------------------------------
  // Lists, records and choices
  // ---------------------------------------------------------------------------

  function ListHead(item: Shape): seq<Member> {
    [Kind("array"), Member("items", SchemaOf(item))]
  }

  lemma {:induction false} FindListHead(item: Shape, key: string)
    ensures Find(ListHead(item), key)
         == if key == "type" then Some(Str("array")) else if key == "items" then Some(SchemaOf(item)) else None
  {
    SoleMember("items", SchemaOf(item), key);
    assert ListHead(item)[1..] == [Member("items", SchemaOf(item))];
  }

  lemma {:induction false} BothBounds(head: seq<Member>, lo: string, hi: string, b: Bounds)
    requires lo != hi && Find(head, lo).None? && Find(head, hi).None?
    ensures
      var members := head + Opt(lo, b.least) + Opt(hi, b.most);
      Find(members, lo) == Bound(b.least) && Find(members, hi) == Bound(b.most)
  {
    Lookups(head, lo, hi, b, lo);
    Lookups(head, lo, hi, b, hi);
  }

  lemma {:induction false} ListHeadLacks(item: Shape)
    ensures Find(ListHead(item), "minItems").None? && Find(ListHead(item), "maxItems").None?
  {
    FindListHead(item, "minItems");
    FindListHead(item, "maxItems");
  }

  lemma {:induction false} ListsSizes(item: Shape, b: Bounds)
    ensures
      var members := SchemaOf(Lists(item, b)).members;
      Find(members, "minItems") == Bound(b.least) && Find(members, "maxItems") == Bound(b.most)
  {
    ListHeadLacks(item);
    BothBounds(ListHead(item), "minItems", "maxItems", b);
  }

  lemma {:induction false} ListsItems(item: Shape, b: Bounds)
    ensures
      var members := SchemaOf(Lists(item, b)).members;
      Find(members, "type") == Some(Str("array")) && Find(members, "items") == Some(SchemaOf(item))
  {
    ListLookup(item, b, "type");
    ListLookup(item, b, "items");
  }

  lemma {:induction false} ListLookup(item: Shape, b: Bounds, key: string)
    ensures
      Find(ListHead(item) + Opt("minItems", b.least) + Opt("maxItems", b.most), key)
      == if key == "minItems" then Bound(b.least) else if key == "maxItems" then Bound(b.most)
         else Find(ListHead(item), key)
    ensures Find(ListHead(item), key)
         == if key == "type" then Some(Str("array")) else if key == "items" then Some(SchemaOf(item)) else None
  {
    FindListHead(item, "minItems");
    FindListHead(item, "maxItems");
    FindListHead(item, key);
    Lookups(ListHead(item), "minItems", "maxItems", b, key);
  }

  lemma {:induction false} ListsLegible(item: Shape, b: Bounds)
    requires Legible(SchemaOf(item))
    ensures Legible(SchemaOf(Lists(item, b)))
  {
    var head := ListHead(item);
    KindIsLegible("array");
    forall i | 0 <= i < |head| ensures LegibleKeyword(head[i]) {
      assert LegibleKeyword(Member("items", SchemaOf(item)));
    }
    BoundedIsLegible(head, "minItems", "maxItems", b);
  }

  lemma {:induction false} FairIsLegible(s: Json, depth: nat)
    requires Fair(s, depth)
    ensures Legible(s)
  {
  }

  lemma {:induction false} ArrayIsFair(s: Json, item: Json, depth: nat)
    requires Get(s, "items") == Some(item) && item != Bool(false) && ItemsAgree(s) && Fair(item, depth + 1)
    ensures FairType(s, "array", depth)
  {
  }

  lemma {:induction false} ListsQuiet(item: Shape, b: Bounds)
    ensures Quiet(SchemaOf(Lists(item, b))) && Get(SchemaOf(Lists(item, b)), "uniqueItems").None?
  {
    var s := SchemaOf(Lists(item, b));
    KeysOfSum(ListHead(item), "minItems", "maxItems", b, PERMITTED);
    PermittedIsQuiet(s.members);
    LacksRest(s.members);
  }

  lemma {:induction false} ListsAgree(item: Shape, b: Bounds)
    requires SizeBounds(b, MAX_ITEMS) && Get(SchemaOf(Lists(item, b)), "uniqueItems").None?
    ensures ItemsAgree(SchemaOf(Lists(item, b)))
  {
    ListsSizes(item, b);
    SizesAgreeFrom(SchemaOf(Lists(item, b)), "minItems", "maxItems", b, MAX_ITEMS);
  }

  lemma {:induction false} ListsFair(item: Shape, b: Bounds, depth: nat)
    requires SizeBounds(b, MAX_ITEMS) && depth <= MAX_DEPTH && Fair(SchemaOf(item), depth + 1)
    ensures Fair(SchemaOf(Lists(item, b)), depth)
  {
    var s, schema := SchemaOf(Lists(item, b)), SchemaOf(item);
    ListsQuiet(item, b);
    ListsAgree(item, b);
    ListsItems(item, b);
    FairIsLegible(schema, depth + 1);
    ListsLegible(item, b);
    ArrayIsFair(s, schema, depth);
    TypedIsFair(s, "array", depth);
  }

  function RecordSchema(properties: seq<Member>, names: seq<string>): Json {
    Obj([Kind("object"), Member("properties", Obj(properties)), Member("required", Arr(Texted(names)))])
  }

  lemma {:induction false} RecordsLookups(fields: seq<Field>, required: seq<string>)
    ensures
      var members := SchemaOf(Records(fields, required)).members;
      && Find(members, "type") == Some(Str("object"))
      && Find(members, "properties") == Some(Obj(FieldSchemas(fields)))
      && Find(members, "required") == Some(Arr(Texted(required)))
  {
    RecordLookup(Obj(FieldSchemas(fields)), Arr(Texted(required)));
  }

  lemma {:induction false} RecordLookup(properties: Json, required: Json)
    ensures
      var members := [Kind("object"), Member("properties", properties), Member("required", required)];
      && Find(members, "type") == Some(Str("object"))
      && Find(members, "properties") == Some(properties) && Find(members, "required") == Some(required)
  {
    var last := Member("required", required);
    var members := [Kind("object"), Member("properties", properties), last];
    assert members[1..] == [Member("properties", properties), last];
    assert members[1..][1..] == [last];
  }

  lemma {:induction false} FieldFound(fields: seq<Field>, i: nat)
    requires i < |fields| && forall i, j :: 0 <= i < j < |fields| ==> fields[i].name != fields[j].name
    ensures Find(FieldSchemas(fields), fields[i].name) == Some(SchemaOf(fields[i].shape))
    ensures DistinctKeys(FieldSchemas(fields))
  {
    PropertyFound(FieldSchemas(fields), i);
  }

  lemma {:induction false} RecordLegible(properties: seq<Member>, names: seq<string>)
    requires forall i :: 0 <= i < |properties| ==> Legible(properties[i].value)
    ensures Legible(RecordSchema(properties, names))
  {
    var members := RecordSchema(properties, names).members;
    KindIsLegible("object");
    assert LegibleKeyword(Member("properties", Obj(properties)));
    assert LegibleKeyword(Member("required", Arr(Texted(names))));
    forall i | 0 <= i < |members| ensures LegibleKeyword(members[i]) {
    }
  }

  lemma {:induction false} RequiredOf(s: Json, required: seq<string>, name: string)
    requires Get(s, "required") == Some(Arr(Texted(required)))
    ensures name in RequiredNames(s) <==> name in required
  {
    if name in required {
      var i :| 0 <= i < |required| && required[i] == name;
      assert Texted(required)[i] == Str(name);
    }
  }

  lemma {:induction false} RecordQuiet(properties: seq<Member>, names: seq<string>)
    ensures Quiet(RecordSchema(properties, names)) && Get(RecordSchema(properties, names), "additionalProperties").None?
  {
    var s := RecordSchema(properties, names);
    PermittedIsQuiet(s.members);
    LacksRest(s.members);
  }

  lemma {:induction false} ConsistentRecord(fields: seq<Field>, required: seq<string>)
    requires Consistent(Records(fields, required))
    ensures forall i, j :: 0 <= i < j < |fields| ==> fields[i].name != fields[j].name
    ensures forall i :: 0 <= i < |required| ==> Named(fields, required[i])
  {
  }

  lemma {:induction false} RequiredDeclared(s: Json, names: seq<string>)
    requires Get(s, "required") == Some(Arr(Texted(names)))
    requires forall i :: 0 <= i < |names| ==> Find(Properties(s), names[i]).Some?
    ensures forall name :: name in RequiredNames(s) ==> Find(Properties(s), name).Some?
  {
    forall name | name in RequiredNames(s) ensures Find(Properties(s), name).Some? {
      RequiredOf(s, names, name);
      var i :| 0 <= i < |names| && names[i] == name;
    }
  }

  lemma {:induction false} ObjectIsFair(s: Json, depth: nat)
    requires DistinctKeys(Properties(s)) && Get(s, "additionalProperties").None?
    requires FairMembers(Properties(s), depth + 1)
    requires forall name :: name in RequiredNames(s) ==> Find(Properties(s), name).Some?
    ensures FairType(s, "object", depth)
  {
  }

  ghost predicate FairMembers(properties: seq<Member>, depth: nat) {
    forall i :: 0 <= i < |properties| ==> Fair(properties[i].value, depth)
  }

  /** An object schema with these properties and required names. */
  predicate IsRecord(s: Json, properties: seq<Member>, names: seq<string>) {
    && Quiet(s) && Legible(s) && SchemaType(s) == Some("object") && Get(s, "additionalProperties").None?
    && Properties(s) == properties && Get(s, "required") == Some(Arr(Texted(names)))
  }

  lemma {:induction false} RecordSchemaIsRecord(properties: seq<Member>, names: seq<string>)
    requires forall i :: 0 <= i < |properties| ==> Legible(properties[i].value)
    ensures IsRecord(RecordSchema(properties, names), properties, names)
  {
    RecordQuiet(properties, names);
    RecordLookup(Obj(properties), Arr(Texted(names)));
    RecordLegible(properties, names);
  }

  lemma {:induction false} RecordIsFair(s: Json, properties: seq<Member>, names: seq<string>, depth: nat)
    requires IsRecord(s, properties, names)
    requires DistinctKeys(properties) && FairMembers(properties, depth + 1) && depth <= MAX_DEPTH
    requires forall i :: 0 <= i < |names| ==> Find(properties, names[i]).Some?
    ensures Fair(s, depth)
  {
    RequiredDeclared(s, names);
    ObjectIsFair(s, depth);
    TypedIsFair(s, "object", depth);
  }

  lemma {:induction false} MembersAreLegible(properties: seq<Member>, depth: nat)
    requires FairMembers(properties, depth)
    ensures forall i :: 0 <= i < |properties| ==> Legible(properties[i].value)
  {
    forall i | 0 <= i < |properties| ensures Legible(properties[i].value) {
      FairIsLegible(properties[i].value, depth);
    }
  }

  lemma {:induction false} RecordsFair(fields: seq<Field>, required: seq<string>, depth: nat)
    requires Consistent(Records(fields, required)) && FairFields(fields, depth + 1) && depth <= MAX_DEPTH
    ensures Fair(SchemaOf(Records(fields, required)), depth)
  {
    var properties := FieldSchemas(fields);
    ConsistentRecord(fields, required);
    forall i | 0 <= i < |required| ensures Find(properties, required[i]).Some? {
      assert Named(fields, required[i]);
      var j :| 0 <= j < |fields| && fields[j].name == required[i];
      FieldFound(fields, j);
    }
    FieldsAll(fields, depth + 1);
    MembersAreLegible(properties, depth + 1);
    RecordSchemaIsRecord(properties, required);
    RecordIsFair(RecordSchema(properties, required), properties, required, depth);
  }

  lemma {:induction false} FieldsAll(fields: seq<Field>, depth: nat)
    requires FairFields(fields, depth)
    ensures FairMembers(FieldSchemas(fields), depth)
  {
    var properties := FieldSchemas(fields);
    forall i | 0 <= i < |properties| ensures Fair(properties[i].value, depth) {
      assert properties[i].value == SchemaOf(fields[i].shape);
    }
  }

  ghost predicate FairFields(fields: seq<Field>, depth: nat) {
    forall i :: 0 <= i < |fields| ==> Fair(SchemaOf(fields[i].shape), depth)
  }

  ghost predicate FairVariants(variants: seq<Shape>, depth: nat) {
    forall i :: 0 <= i < |variants| ==> Fair(SchemaOf(variants[i]), depth)
  }

  ghost predicate AllFair(schemas: seq<Json>, depth: nat) {
    forall i :: 0 <= i < |schemas| ==> Fair(schemas[i], depth)
  }

  lemma {:induction false} EitherFair(variants: seq<Shape>, s: Json, depth: nat)
    requires variants != [] && depth <= MAX_DEPTH && FairVariants(variants, depth + 1)
    requires s == Obj([Member("anyOf", Arr(VariantSchemas(variants)))])
    ensures Fair(s, depth)
  {
    var schemas := VariantSchemas(variants);
    VariantsAll(variants, depth + 1);
    EitherLegible(schemas, depth);
    EitherQuiet(schemas);
    ChoiceIsFair(s, schemas, depth);
  }

  lemma {:induction false} VariantsAll(variants: seq<Shape>, depth: nat)
    requires FairVariants(variants, depth)
    ensures AllFair(VariantSchemas(variants), depth)
  {
    var schemas := VariantSchemas(variants);
    forall i | 0 <= i < |schemas| ensures Fair(schemas[i], depth) {
      assert schemas[i] == SchemaOf(variants[i]);
    }
  }

  lemma {:induction false} EitherLegible(schemas: seq<Json>, depth: nat)
    requires AllFair(schemas, depth + 1)
    ensures Legible(Obj([Member("anyOf", Arr(schemas))]))
  {
    forall i | 0 <= i < |schemas| ensures Legible(schemas[i]) {
      FairIsLegible(schemas[i], depth + 1);
    }
    assert LegibleKeyword(Member("anyOf", Arr(schemas)));
  }

  lemma {:induction false} EitherQuiet(schemas: seq<Json>)
    ensures
      var s := Obj([Member("anyOf", Arr(schemas))]);
      OnlyAnyOf(s) && Pinned(s).None? && Get(s, "anyOf") == Some(Arr(schemas))
  {
    var s := Obj([Member("anyOf", Arr(schemas))]);
    SoleIs("anyOf", Arr(schemas));
    SoleIsUnderstood(s.members, "anyOf");
    SoleIsUnbounded(s.members, "anyOf", Null);
    EitherIsOnlyThat(s);
  }

  lemma {:induction false} ChoiceIsFair(s: Json, schemas: seq<Json>, depth: nat)
    requires Legible(s) && Pinned(s).None? && OnlyAnyOf(s) && Get(s, "anyOf") == Some(Arr(schemas)) && schemas != []
    requires depth <= MAX_DEPTH && AllFair(schemas, depth + 1)
    ensures Fair(s, depth)
  {
  }

  lemma {:induction false} EitherIsOnlyThat(s: Json)
    requires s.Obj? && Sole(s.members, "anyOf") && Understood(s.members) && Unbounded(s.members)
    ensures OnlyAnyOf(s)
  {
  }

  /** Every consistent schema that is not too deep is in the fair fragment. */
  lemma {:induction false} ConsistentIsFair(shape: Shape, depth: nat, below: nat)
    requires Consistent(shape) && depth + below == MAX_DEPTH && Shallow(shape, below)
    ensures Fair(SchemaOf(shape), depth)
    decreases shape, 1
  {
    match shape
    case Ints(b) => IntsFair(b, depth);
    case Texts(b) => TextsFair(b, depth);
    case Flags => FlagsFair(depth);
    case Nothing => NothingFair(depth);
    case Among(values) => AmongFair(values, depth);
    case Exactly(value) => ExactlyFair(value, depth);
    case Lists(item, b) =>
      ItemIsFair(item, b, depth, below);
      ListsFair(item, b, depth);
    case Records(fields, required) =>
      FieldsAreFair(fields, required, depth, below);
      RecordsFair(fields, required, depth);
    case Either(variants) =>
      VariantsAreFair(variants, depth, below);
      EitherFair(variants, SchemaOf(shape), depth);
  }

  lemma {:induction false} FieldsAreFair(fields: seq<Field>, required: seq<string>, depth: nat, below: nat)
    requires Consistent(Records(fields, required)) && depth + below == MAX_DEPTH && Shallow(Records(fields, required), below)
    ensures FairFields(fields, depth + 1)
    decreases fields, 2
  {
    forall i | 0 <= i < |fields| ensures Fair(SchemaOf(fields[i].shape), depth + 1) {
      ConsistentIsFair(fields[i].shape, depth + 1, below - 1);
    }
  }

  lemma {:induction false} VariantsAreFair(variants: seq<Shape>, depth: nat, below: nat)
    requires Consistent(Either(variants)) && depth + below == MAX_DEPTH && Shallow(Either(variants), below)
    ensures FairVariants(variants, depth + 1)
    decreases variants, 2
  {
    forall i | 0 <= i < |variants| ensures Fair(SchemaOf(variants[i]), depth + 1) {
      ConsistentIsFair(variants[i], depth + 1, below - 1);
    }
  }

  lemma {:induction false} ItemIsFair(item: Shape, b: Bounds, depth: nat, below: nat)
    requires Consistent(Lists(item, b)) && depth + below == MAX_DEPTH && Shallow(Lists(item, b), below)
    ensures depth < MAX_DEPTH && SizeBounds(b, MAX_ITEMS) && Fair(SchemaOf(item), depth + 1)
    decreases item, 2
  {
    ConsistentIsFair(item, depth + 1, below - 1);
  }

  // ---------------------------------------------------------------------------
  // Accepted values conform
  // ---------------------------------------------------------------------------

  /** What acceptance of a typed schema says of the value. */
  lemma {:induction false} AcceptedParts(members: seq<Member>, name: string, v: Json)
    requires Find(members, "type") == Some(Str(name)) && Valid(Obj(members), v)
    ensures HasType(v, name) && BoundsOk(members, v) && RequiredOk(members, v)
    ensures ChildrenOk(JsonSchema, Basic, Obj(members), v)
  {
    BasicOnWhole(members, v);
  }

  lemma {:induction false} IntsConform(b: Bounds, v: Json)
    requires Valid(SchemaOf(Ints(b)), v)
    ensures Conforms(Ints(b), v)
  {
    IntsLookups(b);
    AcceptedParts(SchemaOf(Ints(b)).members, "integer", v);
  }

  lemma {:induction false} TextsConform(b: Bounds, v: Json)
    requires Valid(SchemaOf(Texts(b)), v)
    ensures Conforms(Texts(b), v)
  {
    TextsLookups(b);
    AcceptedParts(SchemaOf(Texts(b)).members, "string", v);
  }

  lemma {:induction false} KindsConform(v: Json)
    ensures Valid(SchemaOf(Flags), v) ==> v.Bool?
    ensures Valid(SchemaOf(Nothing), v) ==> v.Null?
  {
    FindKind("boolean", "type");
    FindKind("null", "type");
    if Valid(SchemaOf(Flags), v) {
      AcceptedParts(SchemaOf(Flags).members, "boolean", v);
    }
    if Valid(SchemaOf(Nothing), v) {
      AcceptedParts(SchemaOf(Nothing).members, "null", v);
    }
  }

  lemma {:induction false} ListParts(item: Shape, b: Bounds, v: Json)
    requires Valid(SchemaOf(Lists(item, b)), v)
    ensures v.Arr? && Within(b, |v.items|)
    ensures forall i :: 0 <= i < |v.items| ==> Valid(SchemaOf(item), v.items[i])
  {
    var s := SchemaOf(Lists(item, b));
    ListsSizes(item, b);
    ListsItems(item, b);
    AcceptedParts(s.members, "array", v);
    assert ItemsOk(JsonSchema, Basic, s, v);
  }

  lemma {:induction false} RecordParts(fields: seq<Field>, required: seq<string>, v: Json)
    requires Valid(SchemaOf(Records(fields, required)), v)
    ensures v.Obj?
    ensures forall i :: 0 <= i < |required| ==> Find(v.members, required[i]).Some?
    ensures forall i :: 0 <= i < |fields| && Find(v.members, fields[i].name).Some? ==>
              Valid(SchemaOf(fields[i].shape), Find(v.members, fields[i].name).value)
  {
    var s := SchemaOf(Records(fields, required));
    RecordsLookups(fields, required);
    AcceptedParts(s.members, "object", v);
    forall i | 0 <= i < |required| ensures Find(v.members, required[i]).Some? {
      assert Texted(required)[i] == Str(required[i]);
    }
    assert PropertiesOk(JsonSchema, Basic, s, v);
    var properties := FieldSchemas(fields);
    forall i | 0 <= i < |fields| && Find(v.members, fields[i].name).Some?
      ensures Valid(SchemaOf(fields[i].shape), Find(v.members, fields[i].name).value)
    {
      assert PropertyOk(JsonSchema, Basic, properties[i], v.members);
    }
  }

  lemma {:induction false} AcceptedChoice(s: Json, schemas: seq<Json>, v: Json)
    requires Get(s, "anyOf") == Some(Arr(schemas)) && Valid(s, v)
    ensures exists i :: 0 <= i < |schemas| && Valid(schemas[i], v)
  {
    assert CombinationsOk(JsonSchema, Basic, s, v);
    assert AnyOfOk(JsonSchema, Basic, s, v);
  }

  lemma {:induction false} EitherParts(s: Json, schemas: seq<Json>, v: Json) returns (i: nat)
    requires s == Obj([Member("anyOf", Arr(schemas))]) && Valid(s, v)
    ensures i < |schemas| && Valid(schemas[i], v)
  {
    SoleMember("anyOf", Arr(schemas), "anyOf");
    AcceptedChoice(s, schemas, v);
    i :| 0 <= i < |schemas| && Valid(schemas[i], v);
  }

  /** What the validator accepts under a written schema conforms to it. */
  lemma {:induction false} AcceptedConforms(shape: Shape, v: Json)
    requires Valid(SchemaOf(shape), v)
    ensures Conforms(shape, v)
    decreases shape
  {
    match shape
    case Ints(b) => IntsConform(b, v);
    case Texts(b) => TextsConform(b, v);
    case Flags => KindsConform(v);
    case Nothing => KindsConform(v);
    case Among(values) => AmongAccepts(SchemaOf(shape), values, v);
    case Exactly(value) => ExactlyAccepts(SchemaOf(shape), value, v);
    case Lists(item, b) =>
      ListParts(item, b, v);
      forall i | 0 <= i < |v.items| ensures Conforms(item, v.items[i]) {
        AcceptedConforms(item, v.items[i]);
      }
    case Records(fields, required) =>
      RecordParts(fields, required, v);
      forall i | 0 <= i < |fields| && Find(v.members, fields[i].name).Some?
        ensures Conforms(fields[i].shape, Find(v.members, fields[i].name).value)
      {
        AcceptedConforms(fields[i].shape, Find(v.members, fields[i].name).value);
      }
    case Either(variants) =>
      var i := EitherParts(SchemaOf(shape), VariantSchemas(variants), v);
      AcceptedConforms(variants[i], v);
  }

  /** For every random stream, generating from a consistent written schema succeeds and the
      value conforms. */
  method GenerateConforming(shape: Shape) returns (r: Generated)
    requires Consistent(shape) && Shallow(shape, 32)
    ensures r.Ok? && Conforms(shape, r.value)
  {
    ConsistentIsFair(shape, 0, MAX_DEPTH);
    r := GenerateJsonValue(SchemaOf(shape));
    AcceptedConforms(shape, r.value);
  }
}
