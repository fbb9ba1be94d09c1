/** What it means for a schema to accept an instance, with and without the OpenAPI 3.0
    `nullable` keyword. */
module SchemaSemantics {
  import opened Basics
  import opened JsonModel

  /** Whether `nullable` is a keyword (OpenAPI 3.0) or an ignored annotation (plain JSON Schema). */
  datatype Dialect = OpenApi30 | JsonSchema

  /** The keywords whose meaning is given here; all others are left to an interpretation. */
  predicate Structural(key: string) {
    || key == "type" || key == "nullable"
    || key == "properties" || key == "$defs" || key == "definitions"
    || key == "items" || key == "additionalProperties" || key == "not"
    || key == "allOf" || key == "anyOf" || key == "oneOf"
  }

  function Residual(members: seq<Member>): seq<Member> {
    if members == [] then []
    else (if Structural(members[0].key) then [] else [members[0]]) + Residual(members[1..])
  }

  /** How the remaining keywords of a schema object constrain an instance. */
  type Interpretation = (seq<Member>, Json) -> bool

  predicate HasType(v: Json, name: string) {
    || (name == "null" && v.Null?)
    || (name == "boolean" && v.Bool?)
    || (name == "integer" && v.Int?)
    || (name == "number" && (v.Int? || v.Dec?))
    || (name == "string" && v.Str?)
    || (name == "array" && v.Arr?)
    || (name == "object" && v.Obj?)
  }

  /** A type is a name or a list of names; anything else does not constrain. */
  predicate TypeAllows(kind: Json, v: Json) {
    match kind
    case Str(name) => HasType(v, name)
    case Arr(names) => exists i :: 0 <= i < |names| && names[i].Str? && HasType(v, names[i].text)
    case _ => true
  }

  /** `nullable: true` adds null to the types named by a `type` in the same schema object. */
  predicate TypeOk(d: Dialect, members: seq<Member>, v: Json) {
    match Find(members, "type")
    case None => true
    case Some(kind) =>
      TypeAllows(kind, v) || (d.OpenApi30? && Find(members, "nullable") == Some(Bool(true)) && v.Null?)
  }

  predicate Declared(members: seq<Member>, key: string) {
    match Find(members, "properties")
    case Some(Obj(properties)) => Find(properties, key).Some?
    case _ => false
  }

  /** A schema is a boolean or an object; anything else is none, and accepts nothing. */
  ghost predicate Accepts(d: Dialect, rest: Interpretation, s: Json, v: Json)
    decreases s, 1
  {
    match s
    case Bool(flag) => flag
    case Obj(members) =>
      && TypeOk(d, members, v)
      && rest(Residual(members), v)
      && ChildrenOk(d, rest, s, v)
      && CombinationsOk(d, rest, s, v)
    case _ => false
  }

  /** The keywords about members and elements of the instance. */
  ghost predicate ChildrenOk(d: Dialect, rest: Interpretation, s: Json, v: Json)
    decreases s, 0, 1
  {
    PropertiesOk(d, rest, s, v) && AdditionalOk(d, rest, s, v) && ItemsOk(d, rest, s, v)
  }

  /** The keywords that combine verdicts on the instance itself. */
  ghost predicate CombinationsOk(d: Dialect, rest: Interpretation, s: Json, v: Json)
    decreases s, 0, 1
  {
    NotOk(d, rest, s, v) && AllOfOk(d, rest, s, v) && AnyOfOk(d, rest, s, v) && OneOfOk(d, rest, s, v)
  }

  ghost predicate PropertiesOk(d: Dialect, rest: Interpretation, s: Json, v: Json)
    decreases s, 0, 0
  {
    match Get(s, "properties")
    case Some(Obj(properties)) =>
      v.Obj? ==> forall i :: 0 <= i < |properties| ==>
        PropertyOk(d, rest, properties[i], v.members)
    case _ => true
  }

  ghost predicate PropertyOk(d: Dialect, rest: Interpretation, property: Member, members: seq<Member>)
    decreases property, 2
  {
    match Find(members, property.key)
    case Some(value) => Accepts(d, rest, property.value, value)
    case None => true
  }

  ghost predicate AdditionalOk(d: Dialect, rest: Interpretation, s: Json, v: Json)
    decreases s, 0, 0
  {
    match Get(s, "additionalProperties")
    case Some(schema) =>
      v.Obj? ==> forall i :: 0 <= i < |v.members| && !Declared(s.members, v.members[i].key) ==>
        Accepts(d, rest, schema, v.members[i].value)
    case None => true
  }

  ghost predicate ItemsOk(d: Dialect, rest: Interpretation, s: Json, v: Json)
    decreases s, 0, 0
  {
    match Get(s, "items")
    case Some(schema) => v.Arr? ==> forall i :: 0 <= i < |v.items| ==> Accepts(d, rest, schema, v.items[i])
    case None => true
  }

  ghost predicate NotOk(d: Dialect, rest: Interpretation, s: Json, v: Json)
    decreases s, 0, 0
  {
    match Get(s, "not")
    case Some(schema) => !Accepts(d, rest, schema, v)
    case None => true
  }

  ghost predicate AllOfOk(d: Dialect, rest: Interpretation, s: Json, v: Json)
    decreases s, 0, 0
  {
    match Get(s, "allOf")
    case Some(Arr(schemas)) => forall i :: 0 <= i < |schemas| ==> Accepts(d, rest, schemas[i], v)
    case _ => true
  }

  ghost predicate AnyOfOk(d: Dialect, rest: Interpretation, s: Json, v: Json)
    decreases s, 0, 0
  {
    match Get(s, "anyOf")
    case Some(Arr(schemas)) => exists i :: 0 <= i < |schemas| && Accepts(d, rest, schemas[i], v)
    case _ => true
  }

  ghost predicate OneOfOk(d: Dialect, rest: Interpretation, s: Json, v: Json)
    decreases s, 0, 0
  {
    match Get(s, "oneOf")
    case Some(Arr(schemas)) => ExactlyOne(d, rest, schemas, v)
    case _ => true
  }

  ghost predicate ExactlyOne(d: Dialect, rest: Interpretation, schemas: seq<Json>, v: Json)
    decreases schemas, 3
  {
    exists i :: 0 <= i < |schemas| && OnlyMatch(d, rest, schemas, v, i)
  }

  ghost predicate OnlyMatch(d: Dialect, rest: Interpretation, schemas: seq<Json>, v: Json, i: nat)
    requires i < |schemas|
    decreases schemas, 2
  {
    && Accepts(d, rest, schemas[i], v)
    && forall j :: 0 <= j < |schemas| && j != i ==> !Accepts(d, rest, schemas[j], v)
  }
}

/** The rewrite of `nullable` into `type`, applied when a 3.0 document is loaded. */
module NullableRewrite {
  import opened Basics
  import opened JsonModel
  import opened SchemaSemantics

  predicate HoldsNamedSchemas(key: string) {
    key == "properties" || key == "$defs" || key == "definitions"
  }

  predicate HoldsOneSchema(key: string) {
    key == "items" || key == "additionalProperties" || key == "not"
  }

  predicate HoldsManySchemas(key: string) {
    key == "allOf" || key == "anyOf" || key == "oneOf"
  }

  function WithNull(kind: Json): Json {
    match kind
    case Str(name) => Arr([Str(name), Str("null")])
    case Arr(names) => if Str("null") in names then kind else Arr(names + [Str("null")])
    case _ => kind
  }

  /** The keyword is consumed only next to a `type`. */
  predicate Consumed(members: seq<Member>, rewrite: bool) {
    rewrite && Find(members, "nullable") == Some(Bool(true)) && Find(members, "type").Some?
  }

  function Normalize(s: Json, rewrite: bool): Json {
    if s.Obj? then Obj(NormalizeMembers(s.members, rewrite, Consumed(s.members, rewrite))) else s
  }

  function NormalizeMembers(members: seq<Member>, rewrite: bool, consumed: bool): seq<Member> {
    if members == [] then []
    else
      var m := members[0];
      (if consumed && m.key == "nullable" then [] else [Member(m.key, NormalizeKeyword(m, rewrite, consumed))])
      + NormalizeMembers(members[1..], rewrite, consumed)
  }

  function NormalizeKeyword(m: Member, rewrite: bool, consumed: bool): Json {
    if HoldsNamedSchemas(m.key) then
      if m.value.Obj? then Obj(NormalizeValues(m.value.members, rewrite)) else m.value
    else if HoldsOneSchema(m.key) then Normalize(m.value, rewrite)
    else if HoldsManySchemas(m.key) then
      if m.value.Arr? then Arr(NormalizeItems(m.value.items, rewrite)) else m.value
    else if m.key == "type" && consumed then WithNull(m.value)
    else m.value
  }

  function NormalizeValues(members: seq<Member>, rewrite: bool): (r: seq<Member>)
    ensures |r| == |members|
    ensures forall i :: 0 <= i < |members| ==> r[i] == Member(members[i].key, Normalize(members[i].value, rewrite))
  {
    if members == [] then []
    else [Member(members[0].key, Normalize(members[0].value, rewrite))] + NormalizeValues(members[1..], rewrite)
  }

  function NormalizeItems(items: seq<Json>, rewrite: bool): (r: seq<Json>)
    ensures |r| == |items|
    ensures forall i :: 0 <= i < |items| ==> r[i] == Normalize(items[i], rewrite)
  {
    if items == [] then [] else [Normalize(items[0], rewrite)] + NormalizeItems(items[1..], rewrite)
  }

  // ---------------------------------------------------------------------------
  // How the rewritten object looks
  // ---------------------------------------------------------------------------

  lemma {:induction false} FindNormalized(members: seq<Member>, rewrite: bool, consumed: bool, key: string)
    ensures Find(NormalizeMembers(members, rewrite, consumed), key)
         == if (consumed && key == "nullable") || Find(members, key).None? then None
            else Some(NormalizeKeyword(Member(key, Find(members, key).value), rewrite, consumed))
  {
    if members != [] {
      var out := NormalizeMembers(members, rewrite, consumed);
      var rest := NormalizeMembers(members[1..], rewrite, consumed);
      FindNormalized(members[1..], rewrite, consumed, key);
      if consumed && members[0].key == "nullable" {
        assert out == rest;
      } else {
        assert out[0].key == members[0].key && out[1..] == rest;
      }
    }
  }

  /** Every subschema keyword survives, with its subschemas rewritten. */
  lemma {:induction false} FindOneSchema(members: seq<Member>, consumed: bool, key: string)
    requires HoldsOneSchema(key)
    ensures Find(NormalizeMembers(members, true, consumed), key)
         == match Find(members, key) case None => None case Some(s) => Some(Normalize(s, true))
  {
    FindNormalized(members, true, consumed, key);
  }

  lemma {:induction false} FindManySchemas(members: seq<Member>, consumed: bool, key: string)
    requires HoldsManySchemas(key)
    ensures Find(NormalizeMembers(members, true, consumed), key)
         == match Find(members, key)
            case Some(Arr(xs)) => Some(Arr(NormalizeItems(xs, true)))
            case other => other
  {
    FindNormalized(members, true, consumed, key);
  }

  lemma {:induction false} FindProperties(members: seq<Member>, consumed: bool)
    ensures Find(NormalizeMembers(members, true, consumed), "properties")
         == match Find(members, "properties")
            case Some(Obj(p)) => Some(Obj(NormalizeValues(p, true)))
            case other => other
  {
    FindNormalized(members, true, consumed, "properties");
  }

  lemma {:induction false} FindTypeKeywords(members: seq<Member>, rewrite: bool, consumed: bool)
    ensures Find(NormalizeMembers(members, rewrite, consumed), "nullable")
         == if consumed then None else Find(members, "nullable")
    ensures Find(NormalizeMembers(members, rewrite, consumed), "type")
         == match Find(members, "type")
            case None => None
            case Some(kind) => Some(if consumed then WithNull(kind) else kind)
  {
    FindNormalized(members, rewrite, consumed, "nullable");
    FindNormalized(members, rewrite, consumed, "type");
    TypeKeywordsAreLeaves();
  }

  lemma {:induction false} TypeKeywordsAreLeaves()
    ensures !HoldsNamedSchemas("type") && !HoldsOneSchema("type") && !HoldsManySchemas("type")
    ensures !HoldsNamedSchemas("nullable") && !HoldsOneSchema("nullable") && !HoldsManySchemas("nullable")
  {
  }

  lemma {:induction false} ResidualNormalized(members: seq<Member>, rewrite: bool, consumed: bool)
    ensures Residual(NormalizeMembers(members, rewrite, consumed)) == Residual(members)
  {
    if members != [] {
      var out := NormalizeMembers(members, rewrite, consumed);
      var rest := NormalizeMembers(members[1..], rewrite, consumed);
      ResidualNormalized(members[1..], rewrite, consumed);
      if consumed && members[0].key == "nullable" {
        assert out == rest;
      } else {
        assert out[0].key == members[0].key && out[1..] == rest;
      }
    }
  }

  lemma {:induction false} FindValues(members: seq<Member>, rewrite: bool, key: string)
    ensures Find(NormalizeValues(members, rewrite), key)
         == match Find(members, key) case None => None case Some(s) => Some(Normalize(s, rewrite))
  {
    if members != [] {
      FindValues(members[1..], rewrite, key);
      assert NormalizeValues(members, rewrite)[1..] == NormalizeValues(members[1..], rewrite);
    }
  }

  // ---------------------------------------------------------------------------
  // The rewrite preserves meaning
  // ---------------------------------------------------------------------------

  /** The schema under 3.0 rules accepts exactly what its rewrite accepts under plain rules. */
  ghost predicate Equivalent(rest: Interpretation, s: Json) {
    forall v :: Accepts(OpenApi30, rest, s, v) <==> Accepts(JsonSchema, rest, Normalize(s, true), v)
  }

  lemma {:induction false} TypePreserved(members: seq<Member>, v: Json)
    ensures
      var consumed := Consumed(members, true);
      TypeOk(OpenApi30, members, v) <==> TypeOk(JsonSchema, NormalizeMembers(members, true, consumed), v)
  {
    var consumed := Consumed(members, true);
    FindTypeKeywords(members, true, consumed);
    if consumed {
      WithNullAllows(Find(members, "type").value, v);
    }
  }

  /** Null is added to a type at most once, at the end. */
  lemma {:induction false} WithNullMeaning(kind: Json)
    ensures kind.Str? ==> WithNull(kind) == Arr([kind, Str("null")])
    ensures kind.Arr? ==> WithNull(kind) == if Str("null") in kind.items then kind else Arr(kind.items + [Str("null")])
  {
  }

  lemma {:induction false} WithNullAllows(kind: Json, v: Json)
    ensures TypeAllows(WithNull(kind), v) <==> TypeAllows(kind, v) || v.Null?
  {
    match kind
    case Str(name) =>
      var names := [Str(name), Str("null")];
      assert names[0] == Str(name) && names[1] == Str("null");
    case Arr(names) =>
      if Str("null") in names {
        var i :| 0 <= i < |names| && names[i] == Str("null");
      } else {
        var more := names + [Str("null")];
        assert more[|names|] == Str("null");
        assert forall i :: 0 <= i < |names| ==> more[i] == names[i];
      }
    case _ =>
  }

  /** Everything directly below a schema object is equivalent to its rewrite. */
  ghost predicate NamedEquivalent(rest: Interpretation, members: seq<Member>) {
    match Find(members, "properties")
    case Some(Obj(p)) => forall i :: 0 <= i < |p| ==> Equivalent(rest, p[i].value)
    case _ => true
  }

  ghost predicate OneEquivalent(rest: Interpretation, members: seq<Member>, key: string) {
    Find(members, key).Some? ==> Equivalent(rest, Find(members, key).value)
  }

  ghost predicate ManyEquivalent(rest: Interpretation, members: seq<Member>, key: string) {
    match Find(members, key)
    case Some(Arr(xs)) => forall i :: 0 <= i < |xs| ==> Equivalent(rest, xs[i])
    case _ => true
  }

  lemma {:induction false} PropertiesPreserved(rest: Interpretation, members: seq<Member>, v: Json)
    requires NamedEquivalent(rest, members)
    ensures PropertiesOk(OpenApi30, rest, Obj(members), v) <==> PropertiesOk(JsonSchema, rest, Normalize(Obj(members), true), v)
  {
    FindProperties(members, Consumed(members, true));
    match Find(members, "properties")
    case Some(Obj(p)) =>
      var q := NormalizeValues(p, true);
      if v.Obj? {
        forall i | 0 <= i < |p|
          ensures PropertyOk(OpenApi30, rest, p[i], v.members) <==> PropertyOk(JsonSchema, rest, q[i], v.members)
        {
          assert Equivalent(rest, p[i].value);
        }
      }
    case _ =>
  }

  lemma {:induction false} DeclaredPreserved(members: seq<Member>, key: string)
    ensures Declared(NormalizeMembers(members, true, Consumed(members, true)), key) <==> Declared(members, key)
  {
    FindProperties(members, Consumed(members, true));
    match Find(members, "properties")
    case Some(Obj(p)) => FindValues(p, true, key);
    case _ =>
  }

  lemma {:induction false} AdditionalPreserved(rest: Interpretation, members: seq<Member>, v: Json)
    requires OneEquivalent(rest, members, "additionalProperties")
    ensures AdditionalOk(OpenApi30, rest, Obj(members), v) <==> AdditionalOk(JsonSchema, rest, Normalize(Obj(members), true), v)
  {
    FindOneSchema(members, Consumed(members, true), "additionalProperties");
    forall key { DeclaredPreserved(members, key); }
  }

  lemma {:induction false} ItemsPreserved(rest: Interpretation, members: seq<Member>, v: Json)
    requires OneEquivalent(rest, members, "items")
    ensures ItemsOk(OpenApi30, rest, Obj(members), v) <==> ItemsOk(JsonSchema, rest, Normalize(Obj(members), true), v)
  {
    FindOneSchema(members, Consumed(members, true), "items");
  }

  lemma {:induction false} NotPreserved(rest: Interpretation, members: seq<Member>, v: Json)
    requires OneEquivalent(rest, members, "not")
    ensures NotOk(OpenApi30, rest, Obj(members), v) <==> NotOk(JsonSchema, rest, Normalize(Obj(members), true), v)
  {
    FindOneSchema(members, Consumed(members, true), "not");
  }

  lemma {:induction false} AllOfPreserved(rest: Interpretation, members: seq<Member>, v: Json)
    requires ManyEquivalent(rest, members, "allOf")
    ensures AllOfOk(OpenApi30, rest, Obj(members), v) <==> AllOfOk(JsonSchema, rest, Normalize(Obj(members), true), v)
  {
    FindManySchemas(members, Consumed(members, true), "allOf");
  }

  lemma {:induction false} AnyOfPreserved(rest: Interpretation, members: seq<Member>, v: Json)
    requires ManyEquivalent(rest, members, "anyOf")
    ensures AnyOfOk(OpenApi30, rest, Obj(members), v) <==> AnyOfOk(JsonSchema, rest, Normalize(Obj(members), true), v)
  {
    FindManySchemas(members, Consumed(members, true), "anyOf");
  }

  lemma {:induction false} OneOfMeaning(d: Dialect, rest: Interpretation, members: seq<Member>, v: Json)
    ensures OneOfOk(d, rest, Obj(members), v)
       <==> match Find(members, "oneOf") case Some(Arr(xs)) => ExactlyOne(d, rest, xs, v) case _ => true
  {
  }

  lemma {:induction false} OneOfPreserved(rest: Interpretation, members: seq<Member>, v: Json)
    requires ManyEquivalent(rest, members, "oneOf")
    ensures OneOfOk(OpenApi30, rest, Obj(members), v) <==> OneOfOk(JsonSchema, rest, Normalize(Obj(members), true), v)
  {
    var normal := NormalizeMembers(members, true, Consumed(members, true));
    FindManySchemas(members, Consumed(members, true), "oneOf");
    OneOfMeaning(OpenApi30, rest, members, v);
    OneOfMeaning(JsonSchema, rest, normal, v);
    var listed := Find(members, "oneOf");
    if listed.Some? && listed.value.Arr? {
      ExactlyOnePreserved(rest, listed.value.items, v);
    }
  }

  lemma {:induction false} ExactlyOnePreserved(rest: Interpretation, xs: seq<Json>, v: Json)
    requires forall k :: 0 <= k < |xs| ==> Equivalent(rest, xs[k])
    ensures ExactlyOne(OpenApi30, rest, xs, v) <==> ExactlyOne(JsonSchema, rest, NormalizeItems(xs, true), v)
  {
    var ys := NormalizeItems(xs, true);
    if i: nat :| i < |xs| && OnlyMatch(OpenApi30, rest, xs, v, i) {
      OnlyMatchPreserved(rest, xs, v, i);
      assert OnlyMatch(JsonSchema, rest, ys, v, i);
    }
    if i: nat :| i < |ys| && OnlyMatch(JsonSchema, rest, ys, v, i) {
      OnlyMatchPreserved(rest, xs, v, i);
      assert OnlyMatch(OpenApi30, rest, xs, v, i);
    }
  }

  lemma {:induction false} OnlyMatchPreserved(rest: Interpretation, xs: seq<Json>, v: Json, i: nat)
    requires i < |xs| && forall k :: 0 <= k < |xs| ==> Equivalent(rest, xs[k])
    ensures OnlyMatch(OpenApi30, rest, xs, v, i) <==> OnlyMatch(JsonSchema, rest, NormalizeItems(xs, true), v, i)
  {
    var ys := NormalizeItems(xs, true);
    forall k | 0 <= k < |xs| ensures Accepts(OpenApi30, rest, xs[k], v) <==> Accepts(JsonSchema, rest, ys[k], v) {
      assert Equivalent(rest, xs[k]);
    }
  }

  lemma {:induction false} ChildrenPreserved(rest: Interpretation, members: seq<Member>, v: Json)
    requires NamedEquivalent(rest, members)
    requires OneEquivalent(rest, members, "additionalProperties") && OneEquivalent(rest, members, "items")
    ensures ChildrenOk(OpenApi30, rest, Obj(members), v) <==> ChildrenOk(JsonSchema, rest, Normalize(Obj(members), true), v)
  {
    PropertiesPreserved(rest, members, v);
    AdditionalPreserved(rest, members, v);
    ItemsPreserved(rest, members, v);
  }

  lemma {:induction false} CombinationsPreserved(rest: Interpretation, members: seq<Member>, v: Json)
    requires OneEquivalent(rest, members, "not") && ManyEquivalent(rest, members, "allOf")
    requires ManyEquivalent(rest, members, "anyOf") && ManyEquivalent(rest, members, "oneOf")
    ensures CombinationsOk(OpenApi30, rest, Obj(members), v) <==> CombinationsOk(JsonSchema, rest, Normalize(Obj(members), true), v)
  {
    NotPreserved(rest, members, v);
    AllOfPreserved(rest, members, v);
    AnyOfPreserved(rest, members, v);
    OneOfPreserved(rest, members, v);
  }

  ghost predicate AllEquivalent(rest: Interpretation, members: seq<Member>) {
    && NamedEquivalent(rest, members)
    && OneEquivalent(rest, members, "additionalProperties")
    && OneEquivalent(rest, members, "items") && OneEquivalent(rest, members, "not")
    && ManyEquivalent(rest, members, "allOf")
    && ManyEquivalent(rest, members, "anyOf") && ManyEquivalent(rest, members, "oneOf")
  }

  lemma {:induction false} AcceptsObject(d: Dialect, rest: Interpretation, members: seq<Member>, v: Json)
    ensures Accepts(d, rest, Obj(members), v)
       <==> TypeOk(d, members, v) && rest(Residual(members), v)
            && ChildrenOk(d, rest, Obj(members), v) && CombinationsOk(d, rest, Obj(members), v)
  {
  }

  lemma {:induction false} ObjectPreserved(rest: Interpretation, members: seq<Member>, v: Json)
    requires AllEquivalent(rest, members)
    ensures Accepts(OpenApi30, rest, Obj(members), v) <==> Accepts(JsonSchema, rest, Normalize(Obj(members), true), v)
  {
    var out := NormalizeMembers(members, true, Consumed(members, true));
    ResidualNormalized(members, true, Consumed(members, true));
    TypePreserved(members, v);
    ChildrenPreserved(rest, members, v);
    CombinationsPreserved(rest, members, v);
    AcceptsObject(OpenApi30, rest, members, v);
    AcceptsObject(JsonSchema, rest, out, v);
  }

  /** For every schema and instance, and however the remaining keywords are interpreted,
      the schema under `nullable` rules accepts the instance exactly when the rewritten
      schema accepts it under plain rules. */
  lemma {:induction false} RewritePreservesMeaning(rest: Interpretation, s: Json)
    ensures Equivalent(rest, s)
    decreases s, 1
  {
    if s.Obj? {
      NamedMeaning(rest, s);
      OneMeaning(rest, s, "additionalProperties");
      OneMeaning(rest, s, "items");
      OneMeaning(rest, s, "not");
      ManyMeaning(rest, s, "allOf");
      ManyMeaning(rest, s, "anyOf");
      ManyMeaning(rest, s, "oneOf");
      forall v ensures Accepts(OpenApi30, rest, s, v) <==> Accepts(JsonSchema, rest, Normalize(s, true), v) {
        ObjectPreserved(rest, s.members, v);
      }
    }
  }

  lemma {:induction false} NamedMeaning(rest: Interpretation, s: Json)
    requires s.Obj?
    ensures NamedEquivalent(rest, s.members)
    decreases s, 0
  {
    match Get(s, "properties")
    case Some(Obj(p)) =>
      forall i | 0 <= i < |p| ensures Equivalent(rest, p[i].value) {
        RewritePreservesMeaning(rest, p[i].value);
      }
    case _ =>
  }

  lemma {:induction false} OneMeaning(rest: Interpretation, s: Json, key: string)
    requires s.Obj?
    ensures OneEquivalent(rest, s.members, key)
    decreases s, 0
  {
    match Get(s, key)
    case Some(schema) => RewritePreservesMeaning(rest, schema);
    case None =>
  }

  lemma {:induction false} ManyMeaning(rest: Interpretation, s: Json, key: string)
    requires s.Obj?
    ensures ManyEquivalent(rest, s.members, key)
    decreases s, 0
  {
    match Get(s, key)
    case Some(Arr(xs)) =>
      forall i | 0 <= i < |xs| ensures Equivalent(rest, xs[i]) {
        RewritePreservesMeaning(rest, xs[i]);
      }
    case _ =>
  }

  // ---------------------------------------------------------------------------
  // Rewriting twice equals rewriting once; not rewriting changes nothing
  // ---------------------------------------------------------------------------

  lemma {:induction false} ConsumedOnce(members: seq<Member>, rewrite: bool)
    ensures !Consumed(NormalizeMembers(members, rewrite, Consumed(members, rewrite)), rewrite)
  {
    FindTypeKeywords(members, rewrite, Consumed(members, rewrite));
  }

  lemma {:induction false} RewriteIsIdempotent(s: Json, rewrite: bool)
    ensures Normalize(Normalize(s, rewrite), rewrite) == Normalize(s, rewrite)
    decreases s, 2
  {
    if s.Obj? {
      ConsumedOnce(s.members, rewrite);
      MembersIdempotent(s.members, rewrite, Consumed(s.members, rewrite));
    }
  }

  lemma {:induction false} MembersIdempotent(members: seq<Member>, rewrite: bool, consumed: bool)
    ensures
      var once := NormalizeMembers(members, rewrite, consumed);
      NormalizeMembers(once, rewrite, false) == once
    decreases members, 1
  {
    if members != [] {
      var m, once := members[0], NormalizeMembers(members, rewrite, consumed);
      var rest := NormalizeMembers(members[1..], rewrite, consumed);
      MembersIdempotent(members[1..], rewrite, consumed);
      if consumed && m.key == "nullable" {
        assert once == rest;
      } else {
        KeywordIdempotent(m, rewrite, consumed);
        assert once[0] == Member(m.key, NormalizeKeyword(m, rewrite, consumed)) && once[1..] == rest;
      }
    }
  }

  lemma {:induction false} KeywordIdempotent(m: Member, rewrite: bool, consumed: bool)
    ensures
      var once := NormalizeKeyword(m, rewrite, consumed);
      NormalizeKeyword(Member(m.key, once), rewrite, false) == once
    decreases m, 3
  {
    if HoldsNamedSchemas(m.key) && m.value.Obj? {
      var once := NormalizeValues(m.value.members, rewrite);
      forall i | 0 <= i < |once| ensures Normalize(once[i].value, rewrite) == once[i].value {
        RewriteIsIdempotent(m.value.members[i].value, rewrite);
      }
      assert NormalizeValues(once, rewrite) == once;
    } else if HoldsOneSchema(m.key) {
      RewriteIsIdempotent(m.value, rewrite);
    } else if HoldsManySchemas(m.key) && m.value.Arr? {
      var once := NormalizeItems(m.value.items, rewrite);
      forall i | 0 <= i < |once| ensures Normalize(once[i], rewrite) == once[i] {
        RewriteIsIdempotent(m.value.items[i], rewrite);
      }
      assert NormalizeItems(once, rewrite) == once;
    }
  }

  /** A 3.1 document, loaded without the rewrite, is left as it is. */
  lemma {:induction false} NoRewriteIsIdentity(s: Json)
    ensures Normalize(s, false) == s
    decreases s, 2
  {
    if s.Obj? {
      MembersUntouched(s.members);
    }
  }

  lemma {:induction false} MembersUntouched(members: seq<Member>)
    ensures NormalizeMembers(members, false, false) == members
    decreases members, 1
  {
    if members != [] {
      MembersUntouched(members[1..]);
      var m := members[0];
      if HoldsNamedSchemas(m.key) && m.value.Obj? {
        forall i | 0 <= i < |m.value.members| ensures Normalize(m.value.members[i].value, false) == m.value.members[i].value {
          NoRewriteIsIdentity(m.value.members[i].value);
        }
        assert NormalizeValues(m.value.members, false) == m.value.members;
      } else if HoldsOneSchema(m.key) {
        NoRewriteIsIdentity(m.value);
      } else if HoldsManySchemas(m.key) && m.value.Arr? {
        forall i | 0 <= i < |m.value.items| ensures Normalize(m.value.items[i], false) == m.value.items[i] {
          NoRewriteIsIdentity(m.value.items[i]);
        }
        assert NormalizeItems(m.value.items, false) == m.value.items;
      }
    }
  }
}
