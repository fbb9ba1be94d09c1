/** The schema-driven generator.  Every random draw is an arbitrary choice within the
    range the code draws from, so a contract here holds for every random stream. */
module Faker {
  import opened Basics
  import opened JsonModel
  import opened SchemaSemantics
  import Text

  const MAX_DEPTH: nat := 32
  const MAX_ITEMS: nat := 100
  const MAX_LENGTH: nat := 10000
  const I64_MIN: int := -0x8000_0000_0000_0000
  const I64_MAX: int := 0x7FFF_FFFF_FFFF_FFFF
  const U64_MAX: int := 0xFFFF_FFFF_FFFF_FFFF

  datatype FakerError = DepthExceeded | Unsupported(name: string)

  type Generated = Result<Json, FakerError>

  // ---------------------------------------------------------------------------
  // A plain validator for the remaining keywords
  // ---------------------------------------------------------------------------

  predicate EnumOk(members: seq<Member>, v: Json) {
    match Find(members, "enum")
    case Some(Arr(values)) => v in values
    case _ => true
  }

  predicate ConstOk(members: seq<Member>, v: Json) {
    match Find(members, "const")
    case Some(value) => v == value
    case None => true
  }

  predicate RequiredOk(members: seq<Member>, v: Json) {
    match Find(members, "required")
    case Some(Arr(names)) =>
      v.Obj? ==> forall i :: 0 <= i < |names| && names[i].Str? ==> Find(v.members, names[i].text).Some?
    case _ => true
  }

  /** A lower bound on a size or a value; a bound that is not an integer rejects. */
  predicate AtLeast(bound: Option<Json>, n: int) {
    match bound
    case Some(Int(b)) => b <= n
    case Some(_) => false
    case None => true
  }

  predicate AtMost(bound: Option<Json>, n: int) {
    match bound
    case Some(Int(b)) => n <= b
    case Some(_) => false
    case None => true
  }

  predicate Above(bound: Option<Json>, n: int) {
    match bound
    case Some(Int(b)) => b < n
    case Some(_) => false
    case None => true
  }

  predicate Below(bound: Option<Json>, n: int) {
    match bound
    case Some(Int(b)) => n < b
    case Some(_) => false
    case None => true
  }

  predicate MultipleOf(factor: Option<Json>, n: int) {
    match factor
    case Some(Int(m)) => m > 0 && n % m == 0
    case Some(_) => false
    case None => true
  }

  /** Two decimals can be equal under different texts, so they are never called distinct. */
  predicate NoDecimals(v: Json) {
    match v
    case Dec(_) => false
    case Arr(items) => forall i :: 0 <= i < |items| ==> NoDecimals(items[i])
    case Obj(members) => forall i :: 0 <= i < |members| ==> NoDecimals(members[i].value)
    case _ => true
  }

  predicate Unique(items: seq<Json>) {
    forall i, j :: 0 <= i < j < |items| ==> items[i] != items[j] && NoDecimals(items[i]) && NoDecimals(items[j])
  }

  predicate UniqueOk(keyword: Option<Json>, items: seq<Json>) {
    match keyword
    case Some(Bool(flag)) => flag ==> Unique(items)
    case Some(_) => false
    case None => true
  }

  predicate IntegerOk(members: seq<Member>, n: int) {
    && AtLeast(Find(members, "minimum"), n) && AtMost(Find(members, "maximum"), n)
    && Above(Find(members, "exclusiveMinimum"), n) && Below(Find(members, "exclusiveMaximum"), n)
    && MultipleOf(Find(members, "multipleOf"), n)
  }

  predicate ItemCountOk(members: seq<Member>, items: seq<Json>) {
    && AtLeast(Find(members, "minItems"), |items|) && AtMost(Find(members, "maxItems"), |items|)
    && UniqueOk(Find(members, "uniqueItems"), items)
  }

  predicate Unbounded(members: seq<Member>) {
    && Find(members, "minimum").None? && Find(members, "maximum").None?
    && Find(members, "exclusiveMinimum").None? && Find(members, "exclusiveMaximum").None?
    && Find(members, "multipleOf").None?
  }

  predicate BoundsOk(members: seq<Member>, v: Json) {
    match v
    case Int(n) => IntegerOk(members, n)
    case Str(text) => AtLeast(Find(members, "minLength"), |text|) && AtMost(Find(members, "maxLength"), |text|)
    case Arr(items) => ItemCountOk(members, items)
    case Dec(_) => Unbounded(members)
    case _ => true
  }

  /** The constraining keywords of JSON Schema that this validator does not interpret. */
  predicate Foreign(key: string) {
    || key == "$ref" || key == "$dynamicRef" || key == "$recursiveRef"
    || key == "if" || key == "then" || key == "else"
    || key == "dependencies" || key == "dependentRequired" || key == "dependentSchemas"
    || key == "prefixItems" || key == "additionalItems" || key == "unevaluatedItems"
    || key == "contains" || key == "minContains" || key == "maxContains"
    || key == "patternProperties" || key == "propertyNames" || key == "unevaluatedProperties"
    || key == "minProperties" || key == "maxProperties" || key == "pattern"
  }

  /** No keyword constrains beyond what is interpreted here. */
  predicate Understood(members: seq<Member>) {
    forall i :: 0 <= i < |members| ==> !Foreign(members[i].key)
  }

  /** Accepts only where every constraining keyword is understood and met. */
  predicate Basic(members: seq<Member>, v: Json) {
    && Understood(members)
    && EnumOk(members, v) && ConstOk(members, v) && RequiredOk(members, v) && BoundsOk(members, v)
  }

  ghost predicate Valid(s: Json, v: Json) {
    Accepts(JsonSchema, Basic, s, v)
  }

  lemma {:induction false} FindResidual(members: seq<Member>, key: string)
    requires !Structural(key)
    ensures Find(Residual(members), key) == Find(members, key)
  {
    if members != [] {
      FindResidual(members[1..], key);
      var rest := Residual(members[1..]);
      if Structural(members[0].key) {
        assert Residual(members) == rest;
      } else {
        assert Residual(members)[1..] == rest;
      }
    }
  }

  lemma {:induction false} StructuralIsUnderstood(key: string)
    requires Structural(key)
    ensures !Foreign(key)
  {
  }

  lemma {:induction false} UnderstoodCons(members: seq<Member>)
    requires members != []
    ensures Understood(members) <==> !Foreign(members[0].key) && Understood(members[1..])
  {
    assert forall i :: 0 < i < |members| ==> members[i] == members[1..][i - 1];
  }

  lemma {:induction false} UnderstoodOnWhole(members: seq<Member>)
    ensures Understood(Residual(members)) <==> Understood(members)
  {
    if members != [] {
      UnderstoodOnWhole(members[1..]);
      var rest := Residual(members[1..]);
      UnderstoodCons(members);
      if Structural(members[0].key) {
        StructuralIsUnderstood(members[0].key);
        assert Residual(members) == rest;
      } else {
        assert Residual(members)[0] == members[0] && Residual(members)[1..] == rest;
        UnderstoodCons(Residual(members));
      }
    }
  }

  /** The validator sees the same keywords on the whole schema object. */
  lemma {:induction false} BasicOnWhole(members: seq<Member>, v: Json)
    ensures Basic(Residual(members), v) <==> Basic(members, v)
  {
    UnderstoodOnWhole(members);
    FindResidual(members, "enum");
    FindResidual(members, "const");
    FindResidual(members, "required");
    BoundsOnWhole(members, v);
  }

  lemma {:induction false} BoundsOnWhole(members: seq<Member>, v: Json)
    ensures BoundsOk(Residual(members), v) <==> BoundsOk(members, v)
  {
    match v
    case Int(_) => NumbersOnWhole(members);
    case Str(_) => FindResidual(members, "minLength"); FindResidual(members, "maxLength");
    case Arr(_) =>
      FindResidual(members, "minItems");
      FindResidual(members, "maxItems");
      FindResidual(members, "uniqueItems");
    case Dec(_) => NumbersOnWhole(members);
    case _ =>
  }

  lemma {:induction false} NumbersOnWhole(members: seq<Member>)
    ensures forall n :: IntegerOk(Residual(members), n) <==> IntegerOk(members, n)
    ensures Unbounded(Residual(members)) <==> Unbounded(members)
  {
    FindResidual(members, "minimum");
    FindResidual(members, "maximum");
    FindResidual(members, "exclusiveMinimum");
    FindResidual(members, "exclusiveMaximum");
    FindResidual(members, "multipleOf");
  }

  // ---------------------------------------------------------------------------
  // What the code reads off a schema
  // ---------------------------------------------------------------------------

  /** An example, the first of `examples`, or a default is returned as it stands. */
  function Pinned(s: Json): Option<Json> {
    if Get(s, "example").Some? then Get(s, "example")
    else
      match Get(s, "examples")
      case Some(Arr(xs)) => if xs != [] then Some(xs[0]) else Get(s, "default")
      case _ => Get(s, "default")
  }

  predicate NoExamples(examples: Option<Json>) {
    match examples
    case Some(Arr(xs)) => xs == []
    case _ => true
  }

  lemma {:induction false} PinnedOrder(s: Json)
    ensures Get(s, "example").Some? ==> Pinned(s) == Get(s, "example")
    ensures forall first, rest :: Get(s, "example").None? && Get(s, "examples") == Some(Arr([first] + rest)) ==> Pinned(s) == Some(first)
    ensures Get(s, "example").None? && NoExamples(Get(s, "examples")) ==> Pinned(s) == Get(s, "default")
  {
  }

  /** A list of types names its first one that is not null. */
  lemma {:induction false} FirstNamedMeaning(kinds: seq<Json>, i: nat)
    requires i < |kinds| && kinds[i].Str? && kinds[i].text != "null"
    requires forall j :: 0 <= j < i ==> !kinds[j].Str? || kinds[j] == Str("null")
    ensures FirstNamed(kinds) == kinds[i].text
  {
    if i > 0 {
      assert kinds[1..][i - 1] == kinds[i];
      FirstNamedMeaning(kinds[1..], i - 1);
    }
  }

  function FirstNamed(kinds: seq<Json>): string {
    if kinds == [] then "null"
    else if kinds[0].Str? && kinds[0].text != "null" then kinds[0].text
    else FirstNamed(kinds[1..])
  }

  function SchemaType(s: Json): Option<string> {
    match Get(s, "type")
    case Some(Str(name)) => Some(name)
    case Some(Arr(kinds)) => if kinds == [] then None else Some(FirstNamed(kinds))
    case _ => None
  }

  /** A type that is a name is that one; a list of none, or anything else, is no type; a list
      that names nothing but null is null. */
  lemma {:induction false} SchemaTypeMeaning(s: Json)
    ensures forall name :: Get(s, "type") == Some(Str(name)) ==> SchemaType(s) == Some(name)
    ensures (match Get(s, "type") case Some(Str(_)) => false case Some(Arr(kinds)) => kinds == [] case _ => true)
            ==> SchemaType(s) == None
    ensures match Get(s, "type")
            case Some(Arr(kinds)) =>
              kinds != [] && (forall i :: 0 <= i < |kinds| ==> !kinds[i].Str? || kinds[i] == Str("null"))
              ==> SchemaType(s) == Some("null")
            case _ => true
  {
    match Get(s, "type")
    case Some(Arr(kinds)) =>
      if forall i :: 0 <= i < |kinds| ==> !kinds[i].Str? || kinds[i] == Str("null") {
        NothingNamed(kinds);
      }
    case _ =>
  }

  lemma {:induction false} NothingNamed(kinds: seq<Json>)
    requires forall i :: 0 <= i < |kinds| ==> !kinds[i].Str? || kinds[i] == Str("null")
    ensures FirstNamed(kinds) == "null"
  {
    if kinds != [] {
      NothingNamed(kinds[1..]);
    }
  }

  function AsI64(v: Option<Json>): Option<int> {
    match v
    case Some(Int(n)) => if I64_MIN <= n <= I64_MAX then Some(n) else None
    case _ => None
  }

  function AsU64(v: Option<Json>): Option<nat> {
    match v
    case Some(Int(n)) => if 0 <= n <= U64_MAX then Some(n) else None
    case _ => None
  }

  function Or<T>(v: Option<T>, default: T): T {
    match v
    case Some(x) => x
    case None => default
  }

  function Min(a: int, b: int): int {
    if a < b then a else b
  }

  function Max(a: int, b: int): int {
    if a < b then b else a
  }

  /** The range a size is drawn from: defaults, then the cap, then never empty. */
  function SizeRange(s: Json, minKey: string, maxKey: string, slack: nat, cap: nat): (r: (nat, nat))
    ensures r.0 <= r.1
  {
    var lo := Min(Or(AsU64(Get(s, minKey)), 1), cap);
    (lo, Max(Min(Or(AsU64(Get(s, maxKey)), lo + slack), cap), lo))
  }

  /** The range an integer is drawn from. */
  function IntRange(s: Json): (r: (int, int))
    ensures r.0 <= r.1
  {
    var lo := Or(AsI64(Get(s, "minimum")), 0);
    var hi := Or(AsI64(Get(s, "maximum")), Min(lo + 100, I64_MAX));
    (lo, Max(hi, lo))
  }

  function RequiredNames(s: Json): set<string> {
    match Get(s, "required")
    case Some(Arr(names)) => set i | 0 <= i < |names| && names[i].Str? :: names[i].text
    case _ => {}
  }

  function Properties(s: Json): (r: seq<Member>)
    ensures forall i :: 0 <= i < |r| ==> r[i].value < s
  {
    match Get(s, "properties")
    case Some(Obj(properties)) => properties
    case _ => []
  }

  // ---------------------------------------------------------------------------
  // The fragment on which generation is sound
  // ---------------------------------------------------------------------------

  predicate DistinctKeys(members: seq<Member>) {
    forall i, j :: 0 <= i < j < |members| ==> members[i].key != members[j].key
  }

  /** No keyword combines verdicts. */
  predicate Uncombined(s: Json) {
    && Get(s, "not").None? && Get(s, "allOf").None? && Get(s, "oneOf").None?
    && (match Get(s, "anyOf") case Some(Arr(_)) => false case _ => true)
  }

  /** Besides `anyOf`, no keyword constrains. */
  predicate OnlyAnyOf(s: Json) {
    && Get(s, "not").None? && Get(s, "allOf").None? && Get(s, "oneOf").None?
    && Get(s, "type").None? && Get(s, "properties").None?
    && Get(s, "additionalProperties").None? && Get(s, "items").None?
    && Get(s, "discriminator").None?
    && Get(s, "enum").None? && Get(s, "const").None? && Get(s, "required").None?
    && (s.Obj? ==> Understood(s.members) && Unbounded(s.members))
    && Get(s, "uniqueItems").None?
    && Get(s, "minLength").None? && Get(s, "maxLength").None?
    && Get(s, "minItems").None? && Get(s, "maxItems").None?
  }

  predicate Known(s: Json) {
    s.Obj? ==> Understood(s.members)
  }

  /** The least size drawn, the declared minimum or one but never above the cap, meets both
      declared bounds. */
  predicate SizesAgree(s: Json, minKey: string, maxKey: string, cap: nat) {
    var least := Min(Or(AsU64(Get(s, minKey)), 1), cap);
    AtLeast(Get(s, minKey), least) && AtMost(Get(s, maxKey), least)
  }

  /** Every integer of the range is a multiple: one divides all, another only a lone value. */
  predicate MultiplesAgree(factor: Option<Json>, lo: int, hi: int) {
    match factor
    case Some(Int(m)) => m == 1 || (m > 1 && lo == hi && lo % m == 0)
    case Some(_) => false
    case None => true
  }

  /** The least integer drawn, the declared minimum or zero, meets the declared bounds; the
      exclusive ones leave out everything up to the greatest, the declared maximum or 100
      more; and a factor suits all of it.  Bounds beyond 64 bits are not read. */
  predicate IntegersAgree(s: Json) {
    var least := match Get(s, "minimum") case Some(Int(a)) => (if I64_MIN <= a <= I64_MAX then a else 0) case _ => 0;
    var stretch := if least <= I64_MAX - 100 then least + 100 else I64_MAX;
    var greatest := match Get(s, "maximum") case Some(Int(b)) => (if b <= I64_MAX then b else stretch) case _ => stretch;
    && AtLeast(Get(s, "minimum"), least) && AtMost(Get(s, "maximum"), least)
    && Above(Get(s, "exclusiveMinimum"), least) && Below(Get(s, "exclusiveMaximum"), greatest)
    && MultiplesAgree(Get(s, "multipleOf"), least, greatest)
  }

  /** Elements drawn independently are only sure to differ when there is at most one. */
  predicate UniqueAgrees(s: Json) {
    match Get(s, "uniqueItems")
    case Some(Bool(flag)) => flag ==> SizeRange(s, "minItems", "maxItems", 2, MAX_ITEMS).1 <= 1
    case Some(_) => false
    case None => true
  }

  predicate ItemsAgree(s: Json) {
    SizesAgree(s, "minItems", "maxItems", MAX_ITEMS) && UniqueAgrees(s)
  }

  predicate PlainString(s: Json) {
    && (match Get(s, "format") case Some(Str(_)) => false case _ => true)
    && (match Get(s, "pattern") case Some(Str(_)) => false case _ => true)
  }

  /** A schema whose verdict the validator can only understate: keywords have their proper
      shapes at every level, and none turns a refusal into an acceptance. */
  predicate Legible(s: Json)
    decreases s, 1
  {
    match s
    case Bool(_) => true
    case Obj(members) => forall i :: 0 <= i < |members| ==> LegibleKeyword(members[i])
    case _ => false
  }

  predicate LegibleKeyword(m: Member)
    decreases m, 0
  {
    if m.key == "not" || m.key == "oneOf" then false
    else if m.key == "items" || m.key == "additionalProperties" then Legible(m.value)
    else if m.key == "properties" then
      m.value.Obj? && forall i :: 0 <= i < |m.value.members| ==> Legible(m.value.members[i].value)
    else if m.key == "allOf" || m.key == "anyOf" then
      m.value.Arr? && forall i :: 0 <= i < |m.value.items| ==> Legible(m.value.items[i])
    else if m.key == "enum" || m.key == "required" then m.value.Arr?
    else m.key == "type" ==> m.value.Str? || m.value.Arr?
  }

  /** An array of schemas under `items` constrains by position, and is no schema here. */
  lemma {:induction false} TupleItemsAreUnfair(s: Json, depth: nat)
    requires Get(s, "items").Some? && Get(s, "items").value.Arr?
    ensures !Fair(s, depth)
  {
    var i :| 0 <= i < |s.members| && s.members[i] == Member("items", Get(s, "items").value);
    assert !LegibleKeyword(s.members[i]);
  }

  /** A schema the generator can satisfy when it stands at this depth. */
  ghost predicate Fair(s: Json, depth: nat)
    decreases s, 2
  {
    Legible(s) &&
    if Pinned(s).Some? then Valid(s, Pinned(s).value)
    else
      depth <= MAX_DEPTH &&
      match Get(s, "anyOf")
      case Some(Arr(variants)) =>
        OnlyAnyOf(s) && variants != [] && forall i :: 0 <= i < |variants| ==> Fair(variants[i], depth + 1)
      case _ => Uncombined(s) && FairChoice(s, depth)
  }

  ghost predicate FairChoice(s: Json, depth: nat)
    decreases s, 1
  {
    Known(s) &&
    match Get(s, "enum")
    case Some(Arr(values)) => values != [] && forall i :: 0 <= i < |values| ==> Valid(s, values[i])
    case _ =>
      if Get(s, "const").Some? then Valid(s, Get(s, "const").value)
      else
        match SchemaType(s)
        case None => Valid(s, Obj([]))
        case Some(name) => FairType(s, name, depth)
  }

  ghost predicate FairType(s: Json, name: string, depth: nat)
    decreases s, 0, 1
  {
    if name == "object" then FairObject(s, depth)
    else if name == "array" then FairArray(s, depth)
    else FairScalar(s, name)
  }

  ghost predicate FairScalar(s: Json, name: string) {
    if name == "integer" then IntegersAgree(s)
    else if name == "number" then false
    else if name == "boolean" then true
    else if name == "null" then s.Obj? && TypeOk(JsonSchema, s.members, Null)
    else name == "string" && PlainString(s) && SizesAgree(s, "minLength", "maxLength", MAX_LENGTH)
  }

  ghost predicate FairObject(s: Json, depth: nat)
    decreases s, 0, 0
  {
    && DistinctKeys(Properties(s))
    && (forall i :: 0 <= i < |Properties(s)| ==> Fair(Properties(s)[i].value, depth + 1))
    && (forall name :: name in RequiredNames(s) ==> Find(Properties(s), name).Some?)
    && (match Get(s, "additionalProperties")
        case Some(Bool(true)) => Find(Properties(s), "extra_0").None?
        case Some(Obj(_)) =>
          && Find(Properties(s), "extra_0").None? && Find(Properties(s), "extra_1").None?
          && Fair(Get(s, "additionalProperties").value, depth + 1)
        case _ => true)
  }

  ghost predicate FairArray(s: Json, depth: nat)
    decreases s, 0, 0
  {
    match Get(s, "items")
    case None => ItemsAgree(s) && depth + 1 <= MAX_DEPTH
    case Some(items) =>
      if items == Bool(false) then BoundsOk(s.members, Arr([]))
      else ItemsAgree(s) && Fair(items, depth + 1)
  }

  // ---------------------------------------------------------------------------
  // Why a generated value is accepted
  // ---------------------------------------------------------------------------

  lemma {:induction false} NamedTypeIsListed(kinds: seq<Json>)
    requires FirstNamed(kinds) != "null"
    ensures exists i :: 0 <= i < |kinds| && kinds[i] == Str(FirstNamed(kinds))
    decreases |kinds|
  {
    if !(kinds[0].Str? && kinds[0].text != "null") {
      NamedTypeIsListed(kinds[1..]);
      var i :| 0 <= i < |kinds[1..]| && kinds[1..][i] == Str(FirstNamed(kinds[1..]));
      assert kinds[i + 1] == Str(FirstNamed(kinds));
    } else {
      assert kinds[0] == Str(FirstNamed(kinds));
    }
  }

  /** The type the generator picks is one the schema allows. */
  lemma {:induction false} PickedTypeAllowed(s: Json, name: string, v: Json)
    requires s.Obj? && SchemaType(s) == Some(name) && name != "null" && HasType(v, name)
    ensures TypeOk(JsonSchema, s.members, v)
  {
    match Get(s, "type")
    case Some(Arr(kinds)) => NamedTypeIsListed(kinds);
    case _ =>
  }

  lemma {:induction false} UncombinedPasses(s: Json, v: Json)
    requires s.Obj? && Uncombined(s)
    ensures CombinationsOk(JsonSchema, Basic, s, v)
  {
  }

  lemma {:induction false} ChildlessPasses(s: Json, v: Json)
    requires v.Arr? ==> ItemsOk(JsonSchema, Basic, s, v)
    requires v.Obj? ==> PropertiesOk(JsonSchema, Basic, s, v) && AdditionalOk(JsonSchema, Basic, s, v)
    ensures ChildrenOk(JsonSchema, Basic, s, v)
  {
    assert !v.Obj? ==> PropertiesOk(JsonSchema, Basic, s, v);
    assert !v.Obj? ==> AdditionalOk(JsonSchema, Basic, s, v);
    assert !v.Arr? ==> ItemsOk(JsonSchema, Basic, s, v);
  }

  /** A value that is neither an object nor an array only has its type and bounds to meet. */
  lemma {:induction false} ScalarValid(s: Json, name: string, v: Json)
    requires s.Obj? && Uncombined(s) && !v.Obj? && !v.Arr?
    requires SchemaType(s) == Some(name) && HasType(v, name)
    requires name == "null" ==> TypeOk(JsonSchema, s.members, v)
    requires Basic(s.members, v)
    ensures Valid(s, v)
  {
    if name != "null" {
      PickedTypeAllowed(s, name, v);
    }
    BasicOnWhole(s.members, v);
    UncombinedPasses(s, v);
    ChildlessPasses(s, v);
  }

  /** Only the type and its own keywords decide. */
  predicate Plain(s: Json) {
    Uncombined(s) && NoChoice(s) && Known(s)
  }

  predicate NoChoice(s: Json) {
    && (match Get(s, "enum") case Some(Arr(_)) => false case _ => true)
    && Get(s, "const").None?
  }

  lemma {:induction false} FairByType(s: Json, depth: nat)
    requires NoChoice(s) && Known(s)
    ensures FairChoice(s, depth) <==> match SchemaType(s)
                                      case None => Valid(s, Obj([]))
                                      case Some(name) => FairType(s, name, depth)
  {
  }

  lemma {:induction false} IntegerValid(s: Json, n: int)
    requires s.Obj? && Plain(s) && SchemaType(s) == Some("integer") && IntegersAgree(s)
    requires IntRange(s).0 <= n <= IntRange(s).1
    ensures Valid(s, Int(n))
  {
    DrawnInteger(s, n);
    ScalarValid(s, "integer", Int(n));
  }

  lemma {:induction false} DrawnInteger(s: Json, n: int)
    requires s.Obj? && IntegersAgree(s) && IntRange(s).0 <= n <= IntRange(s).1
    ensures IntegerOk(s.members, n)
  {
    assert AtMost(Get(s, "maximum"), n);
    assert MultipleOf(Get(s, "multipleOf"), n);
  }

  /** Among plain integer schemas, whatever their bounds and factor, every draw is valid if
      and only if the least one meets the bounds, the exclusive bounds leave out the range,
      and the factor suits it. */
  lemma {:induction false} IntegerConditionIsExact(s: Json)
    requires s.Obj? && Plain(s) && SchemaType(s) == Some("integer")
    ensures (forall n :: IntRange(s).0 <= n <= IntRange(s).1 ==> Valid(s, Int(n))) <==> IntegersAgree(s)
  {
    if IntegersAgree(s) {
      forall n | IntRange(s).0 <= n <= IntRange(s).1 ensures Valid(s, Int(n)) {
        IntegerValid(s, n);
      }
    } else {
      var n := FailingDraw(s);
      BrokenInteger(s.members, n);
    }
  }

  /** The range is what the keywords say: the declared bounds, zero for an absent minimum,
      100 above the minimum for an absent maximum, within 64 bits and never empty. */
  lemma {:induction false} IntRangeMeaning(s: Json, least: int)
    requires match Get(s, "minimum") case Some(v) => v == Int(least) && I64_MIN <= least <= I64_MAX case None => least == 0
    ensures Get(s, "maximum").None? ==> IntRange(s) == (least, if least + 100 <= I64_MAX then least + 100 else I64_MAX)
    ensures forall b: int :: Get(s, "maximum") == Some(Int(b)) && I64_MIN <= b <= I64_MAX ==>
              IntRange(s) == (least, if least <= b then b else least)
  {
  }

  /** With consistent bounds only values between them are drawn, and each of them is. */
  lemma {:induction false} EveryIntegerIsDrawn(s: Json, a: int, b: int, n: int, pick: nat)
    requires Get(s, "minimum") == Some(Int(a)) && Get(s, "maximum") == Some(Int(b)) && I64_MIN <= a <= n <= b <= I64_MAX
    ensures a <= DrawnIntegerAt(s, pick) <= b && DrawnIntegerAt(s, n - a) == n
  {
    IntRangeMeaning(s, a);
    EveryValueIsSelected(a, b, n);
  }

  lemma {:induction false} SmallRemainder(k: nat, m: nat)
    requires k < m
    ensures k % m == k
  {
  }

  lemma {:induction false} FailingDraw(s: Json) returns (n: int)
    requires s.Obj? && !IntegersAgree(s)
    ensures IntRange(s).0 <= n <= IntRange(s).1 && !IntegerOk(s.members, n)
  {
    var (lo, hi) := IntRange(s);
    if !IntegerOk(s.members, lo) {
      return lo;
    }
    if !Below(Get(s, "exclusiveMaximum"), hi) {
      return hi;
    }
    assert !MultiplesAgree(Get(s, "multipleOf"), lo, hi);
    var m := Get(s, "multipleOf").value.n;
    NotBothMultiples(lo, m);
    return lo + 1;
  }

  lemma {:induction false} NotBothMultiples(lo: int, m: int)
    requires m > 1 && lo % m == 0
    ensures (lo + 1) % m != 0
  {
    var steps, rest := (lo + 1) / m - lo / m, (lo + 1) % m;
    assert steps * m == 1 - rest;
    assert steps >= 1 ==> steps * m >= m;
    assert steps <= -1 ==> steps * m <= -m;
  }

  /** A draw that breaks a keyword makes the whole value invalid. */
  lemma {:induction false} BrokenInteger(members: seq<Member>, n: int)
    requires !IntegerOk(members, n)
    ensures !Valid(Obj(members), Int(n))
  {
    BasicOnWhole(members, Int(n));
  }

  /** A failing schema: a maximum below the default minimum. */
  lemma {:induction false} LowMaximumFails()
    ensures
      var s := Obj([Member("type", Str("integer")), Member("maximum", Int(-1))]);
      IntRange(s) == (0, 0) && !Valid(s, Int(0))
  {
    var members := [Member("type", Str("integer")), Member("maximum", Int(-1))];
    assert Find(members, "maximum") == Some(Int(-1)) && Find(members, "minimum") == None;
    BrokenInteger(members, 0);
  }

  /** A failing schema: a factor the generator does not read. */
  lemma {:induction false} FactorFails()
    ensures
      var s := Obj([Member("type", Str("integer")), Member("multipleOf", Int(7))]);
      IntRange(s) == (0, 100) && !Valid(s, Int(3))
  {
    var members := [Member("type", Str("integer")), Member("multipleOf", Int(7))];
    assert Find(members, "multipleOf") == Some(Int(7)) && Find(members, "minimum") == None;
    BrokenInteger(members, 3);
  }

  /** Every size drawn respects the declared bounds exactly when the least one does. */
  lemma {:induction false} SizeConditionIsExact(s: Json, minKey: string, maxKey: string, slack: nat, cap: nat)
    requires s.Obj? && cap <= U64_MAX
    ensures
      var (lo, hi) := SizeRange(s, minKey, maxKey, slack, cap);
      (forall n :: lo <= n <= hi ==> AtLeast(Get(s, minKey), n) && AtMost(Get(s, maxKey), n))
      <==> SizesAgree(s, minKey, maxKey, cap)
  {
    var (lo, hi) := SizeRange(s, minKey, maxKey, slack, cap);
    if SizesAgree(s, minKey, maxKey, cap) {
      forall n | lo <= n <= hi ensures AtLeast(Get(s, minKey), n) && AtMost(Get(s, maxKey), n) {
        WithinBoth(s, minKey, maxKey, slack, cap, n);
      }
    } else {
      assert !(AtLeast(Get(s, minKey), lo) && AtMost(Get(s, maxKey), lo));
    }
  }

  /** The range in terms of the keywords: one for an absent minimum, some slack for an absent
      maximum, never above the cap and never empty. */
  lemma {:induction false} SizeRangeMeaning(s: Json, minKey: string, maxKey: string, slack: nat, cap: nat, least: nat)
    requires match Get(s, minKey) case Some(v) => v == Int(least) && least <= U64_MAX case None => least == 1
    requires least <= cap
    ensures Get(s, maxKey).None? ==>
              SizeRange(s, minKey, maxKey, slack, cap) == (least, if least + slack <= cap then least + slack else cap)
    ensures forall b: nat :: Get(s, maxKey) == Some(Int(b)) && b <= U64_MAX ==>
              SizeRange(s, minKey, maxKey, slack, cap) == (least, if b < least then least else if cap < b then cap else b)
  {
  }

  lemma {:induction false} WithinBoth(s: Json, minKey: string, maxKey: string, slack: nat, cap: nat, n: nat)
    requires s.Obj? && cap <= U64_MAX && SizesAgree(s, minKey, maxKey, cap)
    requires
      var (lo, hi) := SizeRange(s, minKey, maxKey, slack, cap);
      lo <= n <= hi
    ensures AtLeast(Get(s, minKey), n) && AtMost(Get(s, maxKey), n)
  {
  }

  predicate DrawnLength(s: Json, n: nat) {
    var (lo, hi) := SizeRange(s, "minLength", "maxLength", 8, MAX_LENGTH);
    lo <= n <= hi
  }

  /** Among plain string schemas, a text of a drawn length is valid when the sizes agree. */
  lemma {:induction false} StringValid(s: Json, text: string)
    requires SchemaType(s) == Some("string") && DrawnLength(s, |text|)
    ensures Plain(s) && SizesAgree(s, "minLength", "maxLength", MAX_LENGTH) ==> Valid(s, Str(text))
  {
    if Plain(s) && SizesAgree(s, "minLength", "maxLength", MAX_LENGTH) {
      SizeConditionIsExact(s, "minLength", "maxLength", 8, MAX_LENGTH);
      ScalarValid(s, "string", Str(text));
    }
  }

  lemma {:induction false} ArrayValid(s: Json, items: seq<Json>)
    requires s.Obj? && Plain(s) && SchemaType(s) == Some("array")
    requires BoundsOk(s.members, Arr(items))
    requires Get(s, "items").Some? ==> forall i :: 0 <= i < |items| ==> Valid(Get(s, "items").value, items[i])
    ensures Valid(s, Arr(items))
  {
    var v := Arr(items);
    PickedTypeAllowed(s, "array", v);
    BasicOnWhole(s.members, v);
    UncombinedPasses(s, v);
    assert ItemsOk(JsonSchema, Basic, s, v);
    ChildlessPasses(s, v);
  }

  lemma {:induction false} DrawnItems(s: Json, items: seq<Json>)
    requires s.Obj? && ItemsAgree(s)
    requires
      var (lo, hi) := SizeRange(s, "minItems", "maxItems", 2, MAX_ITEMS);
      lo <= |items| <= hi
    ensures ItemCountOk(s.members, items)
  {
    SizeConditionIsExact(s, "minItems", "maxItems", 2, MAX_ITEMS);
  }

  function Repeated(x: Json, n: nat): (items: seq<Json>)
    ensures |items| == n && forall i :: 0 <= i < n ==> items[i] == x
  {
    seq(n, _ => x)
  }

  /** Among plain array schemas whose elements accept `x`: an array of a drawn size holding
      nothing but `x`, which independent draws may yield, is always valid if and only if the
      sizes agree and uniqueness is only asked of at most one element. */
  lemma {:induction false} ArrayConditionIsExact(s: Json, x: Json)
    requires s.Obj? && Plain(s) && SchemaType(s) == Some("array")
    requires Get(s, "items").Some? ==> Valid(Get(s, "items").value, x)
    ensures
      var (lo, hi) := SizeRange(s, "minItems", "maxItems", 2, MAX_ITEMS);
      (forall n: nat :: lo <= n <= hi ==> Valid(s, Arr(Repeated(x, n)))) <==> ItemsAgree(s)
  {
    var (lo, hi) := SizeRange(s, "minItems", "maxItems", 2, MAX_ITEMS);
    if ItemsAgree(s) {
      forall n: nat | lo <= n <= hi ensures Valid(s, Arr(Repeated(x, n))) {
        DrawnItems(s, Repeated(x, n));
        ArrayValid(s, Repeated(x, n));
      }
    } else {
      var n := FailingSize(s, x);
      BrokenArray(s.members, Repeated(x, n));
    }
  }

  lemma {:induction false} BrokenArray(members: seq<Member>, items: seq<Json>)
    requires !ItemCountOk(members, items)
    ensures !Valid(Obj(members), Arr(items))
  {
    BasicOnWhole(members, Arr(items));
  }

  lemma {:induction false} FailingSize(s: Json, x: Json) returns (n: nat)
    requires s.Obj? && !ItemsAgree(s)
    ensures
      var (lo, hi) := SizeRange(s, "minItems", "maxItems", 2, MAX_ITEMS);
      lo <= n <= hi && !ItemCountOk(s.members, Repeated(x, n))
  {
    var (lo, hi) := SizeRange(s, "minItems", "maxItems", 2, MAX_ITEMS);
    if !SizesAgree(s, "minItems", "maxItems", MAX_ITEMS) {
      return lo;
    }
    n := hi;
    assert hi >= 2 ==> Repeated(x, hi)[0] == Repeated(x, hi)[1];
  }

  /** Every member is a declared property holding a valid value. */
  ghost predicate DeclaredMembers(properties: seq<Member>, members: seq<Member>) {
    && (forall i :: 0 <= i < |members| ==> Find(properties, members[i].key).Some?)
    && (forall key :: Find(members, key).Some? && Find(properties, key).Some?
          ==> Valid(Find(properties, key).value, Find(members, key).value))
  }

  lemma {:induction false} PropertyFound(properties: seq<Member>, i: nat)
    requires DistinctKeys(properties) && i < |properties|
    ensures Find(properties, properties[i].key) == Some(properties[i].value)
  {
    if i > 0 {
      assert properties[0].key != properties[i].key;
      assert properties[1..][i - 1] == properties[i];
      PropertyFound(properties[1..], i - 1);
    }
  }

  lemma {:induction false} DeclaredPut(properties: seq<Member>, members: seq<Member>, key: string, value: Json)
    requires DeclaredMembers(properties, members)
    requires Find(properties, key).Some? && Valid(Find(properties, key).value, value)
    ensures DeclaredMembers(properties, Put(members, key, value))
  {
    var out := Put(members, key, value);
    forall i | 0 <= i < |out| ensures Find(properties, out[i].key).Some? {
      PutMembers(members, key, value, out[i]);
    }
    forall k | Find(out, k).Some? && Find(properties, k).Some?
      ensures Valid(Find(properties, k).value, Find(out, k).value)
    {
      FindAfterPut(members, key, value, k);
    }
  }

  /** What additional members must satisfy. */
  ghost predicate ExtrasAllowed(s: Json, members: seq<Member>) {
    match Get(s, "additionalProperties")
    case None => true
    case Some(schema) =>
      forall i :: 0 <= i < |members| && Find(Properties(s), members[i].key).None? ==> Valid(schema, members[i].value)
  }

  ghost predicate PropertiesHold(s: Json, members: seq<Member>) {
    forall key :: Find(members, key).Some? && Find(Properties(s), key).Some?
      ==> Valid(Find(Properties(s), key).value, Find(members, key).value)
  }

  ghost predicate RequiredPresent(s: Json, members: seq<Member>) {
    forall name :: name in RequiredNames(s) ==> Find(members, name).Some?
  }

  lemma {:induction false} ObjectChildren(s: Json, members: seq<Member>)
    requires s.Obj? && DistinctKeys(Properties(s)) && PropertiesHold(s, members) && ExtrasAllowed(s, members)
    ensures ChildrenOk(JsonSchema, Basic, s, Obj(members))
  {
    var properties, v := Properties(s), Obj(members);
    forall i | 0 <= i < |properties| ensures PropertyOk(JsonSchema, Basic, properties[i], members) {
      PropertyFound(properties, i);
    }
    assert PropertiesOk(JsonSchema, Basic, s, v);
    assert forall key :: Declared(s.members, key) <==> Find(properties, key).Some?;
    assert AdditionalOk(JsonSchema, Basic, s, v);
    ChildlessPasses(s, v);
  }

  lemma {:induction false} ObjectValid(s: Json, members: seq<Member>)
    requires s.Obj? && Plain(s) && SchemaType(s) == Some("object")
    requires DistinctKeys(Properties(s)) && PropertiesHold(s, members) && ExtrasAllowed(s, members)
    requires RequiredPresent(s, members)
    ensures Valid(s, Obj(members))
  {
    var v := Obj(members);
    PickedTypeAllowed(s, "object", v);
    RequiredMet(s, members);
    BasicOnWhole(s.members, v);
    UncombinedPasses(s, v);
    ObjectChildren(s, members);
  }

  lemma {:induction false} RequiredMet(s: Json, members: seq<Member>)
    requires s.Obj? && RequiredPresent(s, members)
    ensures RequiredOk(s.members, Obj(members))
  {
    match Get(s, "required")
    case Some(Arr(names)) =>
      forall i | 0 <= i < |names| && names[i].Str? ensures Find(members, names[i].text).Some? {
        assert names[i].text in RequiredNames(s);
      }
    case _ =>
  }

  lemma {:induction false} AnyOfValid(s: Json, variants: seq<Json>, i: nat, v: Json)
    requires OnlyAnyOf(s) && Get(s, "anyOf") == Some(Arr(variants)) && i < |variants| && Valid(variants[i], v)
    ensures Valid(s, v)
  {
    BasicOnWhole(s.members, v);
    assert Basic(s.members, v);
    assert ItemsOk(JsonSchema, Basic, s, v);
    assert PropertiesOk(JsonSchema, Basic, s, v);
    assert AdditionalOk(JsonSchema, Basic, s, v);
    ChildlessPasses(s, v);
    assert NotOk(JsonSchema, Basic, s, v);
    assert AllOfOk(JsonSchema, Basic, s, v);
    assert OneOfOk(JsonSchema, Basic, s, v);
    assert AnyOfOk(JsonSchema, Basic, s, v);
  }

  // ---------------------------------------------------------------------------
  // The generator
  // ---------------------------------------------------------------------------

  ghost function Left(depth: nat): nat {
    if depth <= MAX_DEPTH + 1 then MAX_DEPTH + 1 - depth else 0
  }

  /** The entry point: generation starts at depth zero. */
  method GenerateJsonValue(s: Json) returns (r: Generated)
    ensures Fair(s, 0) ==> r.Ok? && Valid(s, r.value)
  {
    r := Generate(s, 0);
  }

  /** The value in a range that a random pick selects. */
  function At(lo: int, hi: int, pick: nat): (n: int)
    requires lo <= hi
    ensures lo <= n <= hi
  {
    lo + pick % (hi - lo + 1)
  }

  /** Every value of a range is selected by some pick. */
  lemma {:induction false} EveryValueIsSelected(lo: int, hi: int, n: int)
    requires lo <= n <= hi
    ensures At(lo, hi, n - lo) == n
  {
    SmallRemainder(n - lo, hi - lo + 1);
  }

  method Draw(lo: int, hi: int) returns (n: int)
    requires lo <= hi
    ensures lo <= n <= hi
  {
    var pick: nat := *;
    n := At(lo, hi, pick);
  }

  method Letters(n: nat) returns (text: string)
    ensures |text| == n && forall i :: 0 <= i < n ==> 'a' <= text[i] <= 'z'
  {
    text := "";
    for i := 0 to n
      invariant |text| == i && forall k :: 0 <= k < i ==> 'a' <= text[k] <= 'z'
    {
      var code := Draw('a' as int, 'z' as int);
      text := text + [code as char];
    }
  }

  /** A pinned value is returned whatever the depth; otherwise the depth is bounded, and a
      fair schema yields a value the validator accepts, on every random stream. */
  method Generate(s: Json, depth: nat) returns (r: Generated)
    ensures Get(s, "example").Some? ==> r == Ok(Get(s, "example").value)
    ensures forall first, rest :: Get(s, "example").None? && Get(s, "examples") == Some(Arr([first] + rest)) ==> r == Ok(first)
    ensures Get(s, "example").None? && NoExamples(Get(s, "examples")) && Get(s, "default").Some? ==> r == Ok(Get(s, "default").value)
    ensures Get(s, "example").None? && NoExamples(Get(s, "examples")) && Get(s, "default").None? && depth > 32
            ==> r == Err(DepthExceeded)
    ensures Fair(s, depth) ==> r.Ok? && Valid(s, r.value)
    decreases Left(depth), 9
  {
    var pinned := Pinned(s);
    PinnedOrder(s);
    if pinned.Some? {
      return Ok(pinned.value);
    }
    if depth > MAX_DEPTH {
      return Err(DepthExceeded);
    }
    var alternatives := if Get(s, "oneOf").Some? then Get(s, "oneOf") else Get(s, "anyOf");
    if alternatives.Some? && alternatives.value.Arr? && alternatives.value.items != [] {
      r := GenerateVariant(s, alternatives.value.items, depth);
      return;
    }
    var all := Get(s, "allOf");
    if all.Some? && all.value.Arr? {
      r := GenerateAll(all.value.items, depth);
      return;
    }
    var pick: nat := *;
    r := GenerateChoice(s, depth, pick);
  }

  /** With a discriminator any variant may be chosen, and an object is tagged with it. */
  method GenerateVariant(s: Json, variants: seq<Json>, depth: nat) returns (r: Generated)
    requires variants != [] && depth <= MAX_DEPTH
    ensures OnlyAnyOf(s) && Get(s, "anyOf") == Some(Arr(variants))
            && (forall i :: 0 <= i < |variants| ==> Fair(variants[i], depth + 1))
            ==> r.Ok? && Valid(s, r.value)
    decreases Left(depth), 8
  {
    var index: nat := Draw(0, |variants| - 1);
    r := Generate(variants[index], depth + 1);
    if r.Err? {
      return;
    }
    var tag := Get(s, "discriminator");
    if tag.Some? && tag.value.Obj? {
      var name := Get(tag.value, "propertyName");
      if name.Some? && name.value.Str? && r.value.Obj? {
        var mapped: string := *;
        r := Ok(Obj(Put(r.value.members, name.value.text, Str(mapped))));
      }
    } else if OnlyAnyOf(s) && Get(s, "anyOf") == Some(Arr(variants)) && Fair(variants[index], depth + 1) {
      AnyOfValid(s, variants, index, r.value);
    }
  }

  method GenerateAll(schemas: seq<Json>, depth: nat) returns (r: Generated)
    requires depth <= MAX_DEPTH
    ensures schemas == [] ==> r == Ok(Obj([]))
    decreases Left(depth), 8
  {
    var merged := Obj([]);
    for i := 0 to |schemas|
      invariant i == 0 ==> merged == Obj([])
    {
      r := Generate(schemas[i], depth + 1);
      if r.Err? {
        return;
      }
      merged := MergeValues(merged, r.value);
    }
    r := Ok(merged);
  }

  /** Members of the source replace those of the target; anything else replaces it whole. */
  method MergeValues(target: Json, source: Json) returns (merged: Json)
    ensures !(target.Obj? && source.Obj?) ==> merged == source
    ensures target.Obj? && source.Obj? ==> merged.Obj? && forall key ::
              Find(merged.members, key) == if LastFind(source.members, key).Some? then LastFind(source.members, key)
                                           else Find(target.members, key)
  {
    if !(target.Obj? && source.Obj?) {
      return source;
    }
    var members := target.members;
    for i := 0 to |source.members|
      invariant forall key ::
        Find(members, key) == if LastFind(source.members[..i], key).Some? then LastFind(source.members[..i], key)
                              else Find(target.members, key)
    {
      var m := source.members[i];
      assert source.members[..i + 1][..i] == source.members[..i];
      forall key { FindAfterPut(members, m.key, m.value, key); }
      members := Put(members, m.key, m.value);
    }
    assert source.members[..|source.members|] == source.members;
    merged := Obj(members);
  }

  function LastFind(members: seq<Member>, key: string): Option<Json> {
    if members == [] then None
    else if members[|members| - 1].key == key then Some(members[|members| - 1].value)
    else LastFind(members[..|members| - 1], key)
  }

  /** One of the listed values, the constant, or a value of the type. */
  method GenerateChoice(s: Json, depth: nat, pick: nat) returns (r: Generated)
    requires depth <= MAX_DEPTH
    ensures forall values :: Get(s, "enum") == Some(Arr(values)) && values != [] ==>
              r == Ok(values[At(0, |values| - 1, pick)])
    ensures (match Get(s, "enum") case Some(Arr(values)) => values == [] case _ => true) && Get(s, "const").Some? ==>
              r == Ok(Get(s, "const").value)
    ensures Uncombined(s) && FairChoice(s, depth) ==> r.Ok? && Valid(s, r.value)
    decreases Left(depth), 7
  {
    var values := Get(s, "enum");
    if values.Some? && values.value.Arr? && values.value.items != [] {
      return Ok(values.value.items[At(0, |values.value.items| - 1, pick)]);
    }
    var fixed := Get(s, "const");
    if fixed.Some? {
      return Ok(fixed.value);
    }
    ghost var fair := Uncombined(s) && FairChoice(s, depth);
    if fair {
      assert Plain(s);
      FairByType(s, depth);
    }
    r := GenerateTyped(s, depth, fair);
  }

  method GenerateTyped(s: Json, depth: nat, ghost fair: bool) returns (r: Generated)
    requires depth <= MAX_DEPTH
    requires fair ==> Plain(s)
    requires fair ==> match SchemaType(s)
                      case None => Valid(s, Obj([]))
                      case Some(name) => FairType(s, name, depth)
    ensures fair ==> r.Ok? && Valid(s, r.value)
    decreases Left(depth), 6
  {
    var kind := SchemaType(s);
    if kind.None? {
      return Ok(Obj([]));
    }
    assert fair ==> FairType(s, kind.value, depth);
    r := GenerateNamed(s, kind.value, depth, fair);
  }

  method GenerateNamed(s: Json, name: string, depth: nat, ghost fair: bool) returns (r: Generated)
    requires depth <= MAX_DEPTH && SchemaType(s) == Some(name)
    requires fair ==> Plain(s)
    requires fair && name == "object" ==> FairObject(s, depth)
    requires fair && name == "array" ==> FairArray(s, depth)
    requires fair && name != "object" && name != "array" ==> FairScalar(s, name)
    ensures fair ==> r.Ok? && Valid(s, r.value)
    decreases Left(depth), 5
  {
    if name == "object" {
      r := GenerateObject(s, depth, fair);
    } else if name == "array" {
      r := GenerateArray(s, depth, fair);
    } else {
      r := GenerateScalar(s, name, fair);
    }
  }

  method GenerateScalar(s: Json, name: string, ghost fair: bool) returns (r: Generated)
    requires SchemaType(s) == Some(name) && name != "object" && name != "array"
    requires fair ==> Plain(s) && FairScalar(s, name)
    ensures fair ==> r.Ok? && Valid(s, r.value)
  {
    if name == "integer" {
      var pick: nat := *;
      r := GenerateInteger(s, pick);
      if fair {
        IntegerValid(s, r.value.n);
      }
    } else if name == "number" {
      var decimal: DecimalText := *;
      r := Ok(Dec(decimal));
    } else if name == "boolean" {
      var flag: bool := *;
      r := Ok(Bool(flag));
      if fair {
        ScalarValid(s, name, r.value);
      }
    } else if name == "null" {
      r := Ok(Null);
      if fair {
        ScalarValid(s, name, Null);
      }
    } else if name == "string" {
      var pick: nat := *;
      r := GenerateString(s, pick);
      if fair {
        StringValid(s, r.value.text);
      }
    } else {
      r := Err(Unsupported(name));
    }
  }

  /** The integer a random pick gives. */
  function DrawnIntegerAt(s: Json, pick: nat): (n: int)
    ensures IntRange(s).0 <= n <= IntRange(s).1
  {
    At(IntRange(s).0, IntRange(s).1, pick)
  }

  method GenerateInteger(s: Json, pick: nat) returns (r: Generated)
    ensures r == Ok(Int(DrawnIntegerAt(s, pick)))
  {
    var (lo, hi) := IntRange(s);
    r := Ok(Int(At(lo, hi, pick)));
  }

  /** A format or a usable pattern decides the text; otherwise letters of a drawn length. */
  method GenerateString(s: Json, pick: nat) returns (r: Generated)
    ensures r.Ok? && r.value.Str?
    ensures PlainString(s) ==>
              var (lo, hi) := SizeRange(s, "minLength", "maxLength", 8, 10000);
              |r.value.text| == At(lo, hi, pick) && forall i :: 0 <= i < |r.value.text| ==> 'a' <= r.value.text[i] <= 'z'
  {
    if !PlainString(s) {
      var text: string := *;
      return Ok(Str(text));
    }
    var (lo, hi) := SizeRange(s, "minLength", "maxLength", 8, MAX_LENGTH);
    var text := Letters(At(lo, hi, pick));
    r := Ok(Str(text));
  }

  const DEFAULT_ITEMS: Json := Obj([Member("type", Str("string"))])

  lemma {:induction false} DefaultItemsFair(depth: nat)
    requires depth <= MAX_DEPTH
    ensures Fair(DEFAULT_ITEMS, depth)
  {
    var s := DEFAULT_ITEMS;
    forall key ensures Get(s, key) == if key == "type" then Some(Str("string")) else None {
      assert s.members[1..] == [];
    }
    DefaultItemsPlain(s);
    DefaultItemsLegible();
    StructuralIsUnderstood("type");
    assert Known(s);
    FairByType(s, depth);
    assert FairScalar(s, "string");
  }

  lemma {:induction false} DefaultItemsLegible()
    ensures Legible(DEFAULT_ITEMS)
  {
    assert LegibleKeyword(Member("type", Str("string")));
  }

  lemma {:induction false} DefaultItemsPlain(s: Json)
    requires forall key :: Get(s, key) == if key == "type" then Some(Str("string")) else None
    ensures SchemaType(s) == Some("string") && Pinned(s).None? && Uncombined(s) && NoChoice(s)
    ensures PlainString(s) && SizesAgree(s, "minLength", "maxLength", MAX_LENGTH) && Get(s, "anyOf").None?
  {
  }

  /** The schema of the elements, when one is declared or defaulted. */
  function ItemSchema(s: Json): Json {
    match Get(s, "items")
    case Some(items) => items
    case None => DEFAULT_ITEMS
  }

  /** Elements of this schema can be generated at this depth. */
  ghost predicate FairItems(schema: Json, depth: nat) {
    (schema == DEFAULT_ITEMS && depth <= MAX_DEPTH) || Fair(schema, depth)
  }

  lemma {:induction false} FairArrayMeaning(s: Json, depth: nat)
    requires s.Obj?
    ensures FairArray(s, depth) && ItemSchema(s) == Bool(false) ==> ItemCountOk(s.members, [])
    ensures FairArray(s, depth) && ItemSchema(s) != Bool(false) ==> ItemsAgree(s) && FairItems(ItemSchema(s), depth + 1)
  {
  }

  method GenerateArray(s: Json, depth: nat, ghost fair: bool) returns (r: Generated)
    requires depth <= MAX_DEPTH && SchemaType(s) == Some("array")
    requires fair ==> Plain(s) && FairArray(s, depth)
    ensures fair ==> r.Ok? && Valid(s, r.value)
    decreases Left(depth), 4
  {
    if fair {
      FairArrayMeaning(s, depth);
    }
    var pick: nat := *;
    var count := DrawnSizeAt(s, pick);
    if ItemSchema(s) == Bool(false) {
      if fair {
        ArrayValid(s, []);
      }
      return Ok(Arr([]));
    }
    r := GenerateFilled(s, ItemSchema(s), count, depth, fair);
  }

  ghost predicate DrawnSize(s: Json, n: nat) {
    var (lo, hi) := SizeRange(s, "minItems", "maxItems", 2, MAX_ITEMS);
    lo <= n <= hi
  }

  lemma {:induction false} DrawnArrayValid(s: Json, items: seq<Json>)
    requires Plain(s) && SchemaType(s) == Some("array") && ItemsAgree(s) && DrawnSize(s, |items|)
    requires AllValid(ItemSchema(s), items)
    ensures Valid(s, Arr(items))
  {
    DrawnItems(s, items);
    ArrayValid(s, items);
  }

  /** Elements: two of slack, at most a hundred. */
  lemma {:induction false} DrawnSizeMeaning(s: Json, n: nat)
    ensures DrawnSize(s, n) <==> var (lo, hi) := SizeRange(s, "minItems", "maxItems", 2, 100); lo <= n <= hi
  {
  }

  function DrawnSizeAt(s: Json, pick: nat): (n: nat)
    ensures DrawnSize(s, n)
  {
    var (lo, hi) := SizeRange(s, "minItems", "maxItems", 2, MAX_ITEMS);
    At(lo, hi, pick)
  }

  ghost predicate AllValid(schema: Json, items: seq<Json>) {
    forall i :: 0 <= i < |items| ==> Valid(schema, items[i])
  }

  method GenerateFilled(s: Json, schema: Json, count: nat, depth: nat, ghost fair: bool) returns (r: Generated)
    requires depth <= MAX_DEPTH && schema == ItemSchema(s) && DrawnSize(s, count)
    requires fair ==> Plain(s) && SchemaType(s) == Some("array") && ItemsAgree(s)
    requires fair ==> FairItems(schema, depth + 1)
    ensures fair ==> r.Ok? && Valid(s, r.value)
    decreases Left(depth), 3
  {
    r := GenerateItems(schema, count, depth + 1, fair);
    if fair {
      DrawnArrayValid(s, r.value.items);
    }
  }

  method GenerateItems(schema: Json, count: nat, depth: nat, ghost fair: bool) returns (r: Generated)
    requires depth <= MAX_DEPTH + 1
    requires fair ==> FairItems(schema, depth)
    ensures r.Ok? ==> r.value.Arr? && |r.value.items| == count
    ensures fair ==> r.Ok? && AllValid(schema, r.value.items)
    decreases Left(depth), 10
  {
    if schema == DEFAULT_ITEMS && depth <= MAX_DEPTH {
      DefaultItemsFair(depth);
    }
    var items := [];
    for i := 0 to count
      invariant |items| == i
      invariant fair ==> forall k :: 0 <= k < i ==> Valid(schema, items[k])
    {
      r := Generate(schema, depth);
      if r.Err? {
        return;
      }
      items := items + [r.value];
    }
    r := Ok(Arr(items));
  }

  lemma {:induction false} ExtraPut(s: Json, members: seq<Member>, key: string, value: Json)
    requires PropertiesHold(s, members) && ExtrasAllowed(s, members) && Find(Properties(s), key).None?
    requires Get(s, "additionalProperties").Some? ==> Valid(Get(s, "additionalProperties").value, value)
    ensures PropertiesHold(s, Put(members, key, value)) && ExtrasAllowed(s, Put(members, key, value))
    ensures forall k :: Find(members, k).Some? ==> Find(Put(members, key, value), k).Some?
  {
    var out := Put(members, key, value);
    forall k ensures Find(out, k) == if k == key then Some(value) else Find(members, k) {
      FindAfterPut(members, key, value, k);
    }
    if Get(s, "additionalProperties").Some? {
      var schema := Get(s, "additionalProperties").value;
      forall i | 0 <= i < |out| && Find(Properties(s), out[i].key).None? ensures Valid(schema, out[i].value) {
        PutMembers(members, key, value, out[i]);
        if out[i] != Member(key, value) {
          var j :| 0 <= j < |members| && members[j] == out[i];
        }
      }
    }
  }

  predicate Invented(key: string) {
    key == "extra_0" || key == "extra_1"
  }

  /** Nothing but invented members is added, and `extra_0` is, when anything is allowed. */
  ghost predicate Extended(s: Json, members: seq<Member>, out: seq<Member>) {
    && (forall k :: Find(out, k) == Find(members, k) || (Invented(k) && Get(s, "additionalProperties").Some?))
    && (Get(s, "additionalProperties") == Some(Bool(true)) ==> Find(out, "extra_0") == Some(Str("mock-extra")))
  }

  lemma {:induction false} FindsAfterPut(out: seq<Member>, key: string, value: Json)
    ensures forall k :: Find(Put(out, key, value), k) == if k == key then Some(value) else Find(out, k)
  {
    forall k ensures Find(Put(out, key, value), k) == if k == key then Some(value) else Find(out, k) {
      FindAfterPut(out, key, value, k);
    }
  }

  function ExtraName(i: nat): string {
    if i == 0 then "extra_0" else "extra_1"
  }

  /** The first `n` invented members have been added and nothing else has. */
  ghost predicate ExtrasDrawn(members: seq<Member>, out: seq<Member>, n: nat) {
    && (forall k :: Find(out, k) == Find(members, k) || Invented(k))
    && (n > 0 ==> Find(out, "extra_0").Some?) && (n > 1 ==> Find(out, "extra_1").Some?)
    && (n <= 1 ==> Find(out, "extra_1") == Find(members, "extra_1"))
  }

  lemma {:induction false} ExtraStep(members: seq<Member>, out: seq<Member>, i: nat, value: Json)
    requires i < 2 && ExtrasDrawn(members, out, i)
    ensures ExtrasDrawn(members, Put(out, ExtraName(i), value), i + 1)
  {
    FindsAfterPut(out, ExtraName(i), value);
  }

  /** Add the invented members a permissive `additionalProperties` calls for. */
  method AddExtras(s: Json, members: seq<Member>, depth: nat, pick: nat, ghost fair: bool)
    returns (r: Result<seq<Member>, FakerError>)
    requires depth <= MAX_DEPTH
    ensures r.Ok? && Get(s, "additionalProperties").Some? && Get(s, "additionalProperties").value.Obj? ==>
              Find(r.value, "extra_0").Some? && (At(1, 2, pick) == 2 ==> Find(r.value, "extra_1").Some?)
    ensures r.Ok? && At(1, 2, pick) == 1 ==> Find(r.value, "extra_1") == Find(members, "extra_1")
    requires fair ==> FairObject(s, depth) && PropertiesHold(s, members) && ExtrasAllowed(s, members)
    ensures fair ==> r.Ok? && PropertiesHold(s, r.value) && ExtrasAllowed(s, r.value)
    ensures fair ==> forall k :: Find(members, k).Some? ==> Find(r.value, k).Some?
    ensures r.Ok? ==> Extended(s, members, r.value)
    decreases Left(depth), 3
  {
    var additional := Get(s, "additionalProperties");
    var out := members;
    if additional == Some(Bool(true)) {
      if fair {
        ExtraPut(s, out, "extra_0", Str("mock-extra"));
      }
      FindsAfterPut(out, "extra_0", Str("mock-extra"));
      out := Put(out, "extra_0", Str("mock-extra"));
    } else if additional.Some? && additional.value.Obj? {
      var count: nat := At(1, 2, pick);
      for i := 0 to count
        invariant fair ==> PropertiesHold(s, out) && ExtrasAllowed(s, out)
        invariant fair ==> forall k :: Find(members, k).Some? ==> Find(out, k).Some?
        invariant ExtrasDrawn(members, out, i)
      {
        var value := Generate(additional.value, depth + 1);
        if value.Err? {
          return Err(value.error);
        }
        var key := ExtraName(i);
        if fair {
          ExtraPut(s, out, key, value.value);
        }
        ExtraStep(members, out, i, value.value);
        out := Put(out, key, value.value);
      }
    }
    return Ok(out);
  }

  predicate OnlyDeclared(properties: seq<Member>, members: seq<Member>) {
    forall i :: 0 <= i < |members| ==> Find(properties, members[i].key).Some?
  }

  predicate RequiredSoFar(properties: seq<Member>, n: nat, required: set<string>, members: seq<Member>)
    requires n <= |properties|
  {
    forall k :: 0 <= k < n && properties[k].key in required ==> Find(members, properties[k].key).Some?
  }

  /** Of the first `n` properties, the required and the drawn ones are there, and no others. */
  predicate Included(properties: seq<Member>, n: nat, required: set<string>, coins: nat -> bool, members: seq<Member>) {
    forall k :: 0 <= k < |properties| ==>
      (Find(members, properties[k].key).Some? <==> k < n && (properties[k].key in required || coins(k)))
  }

  lemma {:induction false} IncludedPut(
    properties: seq<Member>, i: nat, required: set<string>, coins: nat -> bool, members: seq<Member>, value: Json)
    requires i < |properties| && DistinctKeys(properties) && Included(properties, i, required, coins, members)
    requires properties[i].key in required || coins(i)
    ensures Included(properties, i + 1, required, coins, Put(members, properties[i].key, value))
  {
    FindsAfterPut(members, properties[i].key, value);
  }

  lemma {:induction false} PropertyPut(properties: seq<Member>, i: nat, required: set<string>, members: seq<Member>, value: Json)
    requires i < |properties| && OnlyDeclared(properties, members) && RequiredSoFar(properties, i, required, members)
    ensures OnlyDeclared(properties, Put(members, properties[i].key, value))
    ensures RequiredSoFar(properties, i + 1, required, Put(members, properties[i].key, value))
  {
    var key := properties[i].key;
    var out := Put(members, key, value);
    forall j | 0 <= j < |out| ensures Find(properties, out[j].key).Some? {
      PutMembers(members, key, value, out[j]);
      assert properties[i] in properties;
    }
    FindsAfterPut(members, key, value);
  }

  lemma {:induction false} OnlyDeclaredFinds(properties: seq<Member>, members: seq<Member>, key: string)
    requires OnlyDeclared(properties, members) && Find(members, key).Some?
    ensures Find(properties, key).Some?
  {
    var i :| 0 <= i < |members| && members[i] == Member(key, Find(members, key).value);
  }

  /** Required properties always, others by chance, each from its own schema. */
  method GenerateProperties(s: Json, depth: nat, coins: nat -> bool, ghost fair: bool)
    returns (r: Result<seq<Member>, FakerError>)
    requires depth <= MAX_DEPTH
    ensures r.Ok? && DistinctKeys(Properties(s)) ==> Included(Properties(s), |Properties(s)|, RequiredNames(s), coins, r.value)
    requires fair ==> FairObject(s, depth)
    ensures fair ==> r.Ok? && DeclaredMembers(Properties(s), r.value) && RequiredPresent(s, r.value)
    ensures r.Ok? ==> OnlyDeclared(Properties(s), r.value)
    decreases Left(depth), 3
  {
    var properties, required := Properties(s), RequiredNames(s);
    var out: seq<Member> := [];
    for i := 0 to |properties|
      invariant fair ==> DeclaredMembers(properties, out)
      invariant OnlyDeclared(properties, out)
      invariant RequiredSoFar(properties, i, required, out)
      invariant DistinctKeys(properties) ==> Included(properties, i, required, coins, out)
    {
      var property := properties[i];
      if property.key in required || coins(i) {
        var value := Generate(property.value, depth + 1);
        if value.Err? {
          return Err(value.error);
        }
        if fair {
          PropertyFound(properties, i);
          DeclaredPut(properties, out, property.key, value.value);
        }
        PropertyPut(properties, i, required, out, value.value);
        if DistinctKeys(properties) {
          IncludedPut(properties, i, required, coins, out, value.value);
        }
        out := Put(out, property.key, value.value);
      }
    }
    if fair {
      RequiredAreDeclared(s, out);
    }
    return Ok(out);
  }

  lemma {:induction false} RequiredAreDeclared(s: Json, members: seq<Member>)
    requires forall name :: name in RequiredNames(s) ==> Find(Properties(s), name).Some?
    requires forall k :: 0 <= k < |Properties(s)| && Properties(s)[k].key in RequiredNames(s)
               ==> Find(members, Properties(s)[k].key).Some?
    ensures RequiredPresent(s, members)
  {
    forall name | name in RequiredNames(s) ensures Find(members, name).Some? {
      var value := Find(Properties(s), name).value;
      var k :| 0 <= k < |Properties(s)| && Properties(s)[k] == Member(name, value);
    }
  }

  method GenerateObject(s: Json, depth: nat, ghost fair: bool) returns (r: Generated)
    requires depth <= MAX_DEPTH && SchemaType(s) == Some("object")
    requires fair ==> Plain(s) && FairObject(s, depth)
    ensures fair ==> r.Ok? && Valid(s, r.value)
    ensures r.Ok? ==> r.value.Obj? && Drawn(s, r.value.members)
    decreases Left(depth), 4
  {
    var coins: nat -> bool := *;
    var declared := GenerateProperties(s, depth, coins, fair);
    if declared.Err? {
      return Err(declared.error);
    }
    if fair {
      DeclaredIsEnough(s, declared.value);
    }
    var pick: nat := *;
    var all := AddExtras(s, declared.value, depth, pick, fair);
    if all.Err? {
      return Err(all.error);
    }
    if fair {
      ObjectValid(s, all.value);
    }
    ExtendedIsDrawn(s, declared.value, all.value);
    return Ok(Obj(all.value));
  }

  lemma {:induction false} DeclaredIsEnough(s: Json, members: seq<Member>)
    requires DeclaredMembers(Properties(s), members)
    ensures PropertiesHold(s, members) && ExtrasAllowed(s, members)
  {
  }

  // ---------------------------------------------------------------------------
  // Object schemas that are never satisfied
  // ---------------------------------------------------------------------------

  /** What every generated object is like, fair or not: its members are declared or
      invented, and `extra_0` is the stock text when anything is allowed. */
  ghost predicate Drawn(s: Json, members: seq<Member>) {
    && (forall k :: Find(members, k).Some? ==>
          Find(Properties(s), k).Some? || (Invented(k) && Get(s, "additionalProperties").Some?))
    && (Get(s, "additionalProperties") == Some(Bool(true)) ==> Find(members, "extra_0") == Some(Str("mock-extra")))
  }

  lemma {:induction false} ExtendedIsDrawn(s: Json, members: seq<Member>, out: seq<Member>)
    requires OnlyDeclared(Properties(s), members) && Extended(s, members, out)
    ensures Drawn(s, out)
  {
    forall k | Find(members, k).Some? ensures Find(Properties(s), k).Some? {
      OnlyDeclaredFinds(Properties(s), members, k);
    }
  }

  /** A required name that is neither declared nor invented is always missing. */
  lemma {:induction false} UndeclaredRequiredFails(s: Json, members: seq<Member>, name: string)
    requires s.Obj? && Drawn(s, members) && name in RequiredNames(s) && Find(Properties(s), name).None?
    requires !Invented(name) || Get(s, "additionalProperties").None?
    ensures !Valid(s, Obj(members))
  {
    BasicOnWhole(s.members, Obj(members));
    assert Find(members, name).None?;
    assert !RequiredOk(s.members, Obj(members));
  }

  /** A property declared under the invented name is overwritten, whatever it asks for. */
  lemma {:induction false} ExtraCollisionFails(s: Json, members: seq<Member>)
    requires s.Obj? && Drawn(s, members) && Get(s, "additionalProperties") == Some(Bool(true))
    requires Find(Properties(s), "extra_0").Some?
    requires !Valid(Find(Properties(s), "extra_0").value, Str("mock-extra"))
    ensures !Valid(s, Obj(members))
  {
    var properties, schema := Properties(s), Find(Properties(s), "extra_0").value;
    var i :| 0 <= i < |properties| && properties[i] == Member("extra_0", schema);
    assert !PropertyOk(JsonSchema, Basic, properties[i], members);
    assert !PropertiesOk(JsonSchema, Basic, s, Obj(members));
    assert !ChildrenOk(JsonSchema, Basic, s, Obj(members));
  }
}
