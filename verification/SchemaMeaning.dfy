/** What acceptance says, keyword by keyword. */
module SchemaMeaning {
  import opened Basics
  import opened JsonModel
  import opened SchemaSemantics

  /** The type name of a value; an integer is also a number. */
  function KindOf(v: Json): string {
    match v
    case Null => "null"
    case Bool(_) => "boolean"
    case Int(_) => "integer"
    case Dec(_) => "number"
    case Str(_) => "string"
    case Arr(_) => "array"
    case Obj(_) => "object"
  }

  lemma {:induction false} KindMeaning(v: Json, name: string)
    ensures HasType(v, name) <==> name == KindOf(v) || (v.Int? && name == "number")
  {
  }

  ghost predicate All(d: Dialect, rest: Interpretation, schemas: seq<Json>, v: Json) {
    forall i :: 0 <= i < |schemas| ==> Accepts(d, rest, schemas[i], v)
  }

  ghost predicate Any(d: Dialect, rest: Interpretation, schemas: seq<Json>, v: Json) {
    exists i :: 0 <= i < |schemas| && Accepts(d, rest, schemas[i], v)
  }

  /** No two accept; one does. */
  ghost predicate One(d: Dialect, rest: Interpretation, schemas: seq<Json>, v: Json) {
    && Any(d, rest, schemas, v)
    && (forall i, j :: 0 <= i < j < |schemas| ==> !(Accepts(d, rest, schemas[i], v) && Accepts(d, rest, schemas[j], v)))
  }

  /** `allOf` asks for all, `oneOf` for one and no second, `not` for refusal. */
  lemma {:induction false} CombinationMeaning(d: Dialect, rest: Interpretation, members: seq<Member>, v: Json)
    requires Accepts(d, rest, Obj(members), v)
    ensures match Find(members, "allOf") case Some(Arr(xs)) => All(d, rest, xs, v) case _ => true
    ensures match Find(members, "oneOf") case Some(Arr(xs)) => One(d, rest, xs, v) case _ => true
    ensures match Find(members, "anyOf") case Some(Arr(xs)) => Any(d, rest, xs, v) case _ => true
    ensures match Find(members, "not") case Some(x) => !Accepts(d, rest, x, v) case _ => true
  {
    var s := Obj(members);
    assert CombinationsOk(d, rest, s, v);
    assert AllOfOk(d, rest, s, v) && OneOfOk(d, rest, s, v) && AnyOfOk(d, rest, s, v) && NotOk(d, rest, s, v);
    if Find(members, "anyOf").Some? && Find(members, "anyOf").value.Arr? {
      SomeAccepts(d, rest, s, Find(members, "anyOf").value.items, v);
    }
    match Find(members, "oneOf")
    case Some(Arr(xs)) => ExactlyOneIsOne(d, rest, xs, v);
    case _ =>
  }

  lemma {:induction false} ExactlyOneIsOne(d: Dialect, rest: Interpretation, schemas: seq<Json>, v: Json)
    ensures ExactlyOne(d, rest, schemas, v) <==> One(d, rest, schemas, v)
  {
    if i: nat :| i < |schemas| && OnlyMatch(d, rest, schemas, v, i) {
      assert Accepts(d, rest, schemas[i], v);
    }
    if i: nat :| i < |schemas| && Accepts(d, rest, schemas[i], v) {
      if One(d, rest, schemas, v) {
        assert OnlyMatch(d, rest, schemas, v, i);
      }
    }
  }

  lemma {:induction false} SomeAccepts(d: Dialect, rest: Interpretation, s: Json, schemas: seq<Json>, v: Json)
    requires Get(s, "anyOf") == Some(Arr(schemas))
    ensures AnyOfOk(d, rest, s, v) <==> Any(d, rest, schemas, v)
  {
  }

  /** Declared members meet their schemas, the others the schema for additional ones, and
      elements the schema for items. */
  lemma {:induction false} ChildMeaning(d: Dialect, rest: Interpretation, members: seq<Member>, v: Json)
    requires Accepts(d, rest, Obj(members), v)
    ensures
      match (Find(members, "properties"), v)
      case (Some(Obj(ps)), Obj(vs)) =>
        forall i :: 0 <= i < |ps| && Find(vs, ps[i].key).Some? ==> Accepts(d, rest, ps[i].value, Find(vs, ps[i].key).value)
      case _ => true
    ensures
      match (Find(members, "additionalProperties"), v)
      case (Some(x), Obj(vs)) =>
        forall i :: 0 <= i < |vs| && !Declared(members, vs[i].key) ==> Accepts(d, rest, x, vs[i].value)
      case _ => true
    ensures
      match (Find(members, "items"), v)
      case (Some(x), Arr(vs)) => forall i :: 0 <= i < |vs| ==> Accepts(d, rest, x, vs[i])
      case _ => true
  {
    var s := Obj(members);
    assert ChildrenOk(d, rest, s, v);
    assert PropertiesOk(d, rest, s, v) && AdditionalOk(d, rest, s, v) && ItemsOk(d, rest, s, v);
    match (Find(members, "properties"), v)
    case (Some(Obj(ps)), Obj(vs)) =>
      forall i | 0 <= i < |ps| && Find(vs, ps[i].key).Some?
        ensures Accepts(d, rest, ps[i].value, Find(vs, ps[i].key).value)
      {
        assert PropertyOk(d, rest, ps[i], vs);
      }
    case _ =>
  }

  lemma {:induction false} DeclaredMeaning(members: seq<Member>, key: string)
    ensures Declared(members, key)
       <==> exists ps: seq<Member> :: Find(members, "properties") == Some(Obj(ps)) && exists i :: 0 <= i < |ps| && ps[i].key == key
  {
    match Find(members, "properties")
    case Some(Obj(ps)) =>
      assert Find(ps, key).Some? <==> exists i :: 0 <= i < |ps| && ps[i].key == key;
    case _ =>
  }
}
