/** Where the identifier of a request comes from, what a create files under it, and what a
    validated sidecar guarantees about both. */
module Identifiers {
  import opened Basics
  import opened JsonModel
  import opened ScenarioMachine
  import opened SidecarModel
  import opened StoreTypes
  import opened RuntimeSpec
  import opened RuntimeLaws
  import opened Router
  import KeyPointers
  import Location
  import PointerLaws
  import Scalars
  import Store = StoreSpec
  import Template
  import Text

  // ---------------------------------------------------------------------------
  // Identifiers
  // ---------------------------------------------------------------------------

  /** A key names a parameter with or without braces around it. */
  lemma {:induction false} ParameterNameMeaning(name: string)
    ensures ParameterName("{" + name + "}") == name
    ensures |name| < 2 || name[0] != '{' || name[|name| - 1] != '}' ==> ParameterName(name) == name
  {
    var braced := "{" + name + "}";
    assert braced[1..|braced| - 1] == name;
  }

  /** The text found at a pointer: a string's own, none for a null or a missing place, and
      the printed text otherwise. */
  lemma {:induction false} FoundText(subject: Json, pointer: string)
    ensures
      var place, text := Follow(subject, KeyPointers.Followed(pointer)), PointerValue(subject, pointer);
      match place
      case None => text == None
      case Some(Null) => text == None
      case Some(v) =>
        && text.Some?
        && (v.Str? || v.Bool? || v.Int? || v.Dec? ==> Scalars.Shows(text.value, v))
        && (v.Arr? || v.Obj? ==> text.value == Print(v))
  {
    var place := Follow(subject, KeyPointers.Followed(pointer));
    if place.Some? && (place.value.Bool? || place.value.Int? || place.value.Dec?) {
      Scalars.PrintShows(place.value);
    }
  }

  /** The document a key source reads, if there is one. */
  function Source(source: KeySource, req: Request): Option<Json> {
    match source.location
    case Request => req.body
    case Response => Some(req.generated)
  }

  /** The identifier found in the message. */
  function InMessage(use: StoreUse, req: Request): Option<string> {
    if use.keyFrom.None? then None
    else
      match Source(use.keyFrom.value, req)
      case None => None
      case Some(document) => PointerValue(document, use.keyFrom.value.pointer)
  }

  /** A create takes its identifier from the message alone; a read, update or delete from the
      bound parameter its key names, else from the message; a list has none. */
  lemma {:induction false} AddressMeaning(use: StoreUse, req: Request, name: string)
    requires use.key.Some? ==> use.key.value == name || use.key.value == "{" + name + "}"
    requires '{' !in name
    ensures
      var target, space := Addressed(use, req), Template.Substitute(use.resource, req.params);
      match use.action
      case List => target == None
      case Create =>
        target == (match InMessage(use, req) case Some(id) => Some(StoreKey(space, id)) case None => None)
      case _ =>
        if use.key.Some? && name in req.params then target == Some(StoreKey(space, req.params[name]))
        else target == (match InMessage(use, req) case Some(id) => Some(StoreKey(space, id)) case None => None)
  {
    ParameterNameMeaning(name);
    if name != "" {
      assert name[0] in name;
    }
  }

  /** What a create files: the request's own document when the key came from it and the
      document is to follow the key; else the generated reply, with the identifier written at
      the key's pointer when the reply is what is kept. */
  lemma {:induction false} FiledMeaning(use: StoreUse, req: Request, id: string)
    requires use.action.Create? && InMessage(use, req) == Some(id)
    ensures
      var source := use.keyFrom.value;
      CreatedValue(use, req, id)
      == if req.createValue.FollowKeySource? then Source(source, req).value
         else if source.pointer == "" then req.generated
         else Align(req.generated, KeyPointers.Followed(source.pointer), id)
  {
    assert KeyPointers.Followed(use.keyFrom.value.pointer)
        == if use.keyFrom.value.pointer == "" then [] else PointerSegments(use.keyFrom.value.pointer);
  }

  // ---------------------------------------------------------------------------
  // Namespaces
  // ---------------------------------------------------------------------------

  /** A collection without parameters is its own namespace. */
  lemma {:induction false} PlainNamespace(use: StoreUse, req: Request)
    requires '{' !in use.resource
    ensures Namespace(use, req) == use.resource
  {
    Template.SubstituteLiteral(use.resource, "", req.params);
    assert use.resource + "" == use.resource;
    assert Template.Substitute("", req.params) == "";
  }

  /** Two requests on one collection that differ in a parameter it names, outside any open
      brace, never address the same resource. */
  lemma {:induction false} TenantsNeverCollide(use: StoreUse, a: Request, b: Request, k: nat, name: string)
    requires Template.SlashFreeNames(a.params) && Template.SegmentValues(a.params)
    requires Template.SlashFreeNames(b.params) && Template.SegmentValues(b.params)
    requires k < |SplitPath(use.resource)| && ParseSegment(SplitPath(use.resource)[k]) == Param(name) && '}' !in name
    requires !Location.OpenBefore(SplitPath(use.resource), k, false)
    requires name in a.params && name in b.params && a.params[name] != b.params[name]
    requires Addressed(use, a).Some? && Addressed(use, b).Some?
    ensures Addressed(use, a) != Addressed(use, b)
  {
    var parts := SplitPath(use.resource);
    Location.RenderedSegments(use.resource, a.params);
    Location.RenderedSegments(use.resource, b.params);
    Location.RenderPartsAt(parts, false, a.params, k);
    Location.RenderPartsAt(parts, false, b.params, k);
    Location.ParameterRenders(parts[k], name, a.params);
    Location.ParameterRenders(parts[k], name, b.params);
  }

  // ---------------------------------------------------------------------------
  // What validation guarantees
  // ---------------------------------------------------------------------------

  /** A request in which every key of the operation finds something. */
  function Helpful(use: StoreUse, id: string): Request {
    var document := if use.keyFrom.Some? && use.keyFrom.value.pointer != ""
                    then Align(Null, PointerSegments(use.keyFrom.value.pointer), id) else Str(id);
    Request.Request(None, None, "", "",
            if use.key.Some? then map[ParameterName(use.key.value) := id] else map[],
            Some(document), document, false, true, FollowKeySource)
  }

  lemma {:induction false} HelpfulFinds(use: StoreUse, id: string)
    requires use.keyFrom.Some?
    ensures InMessage(use, Helpful(use, id)) == Some(id)
  {
    var pointer := use.keyFrom.value.pointer;
    if pointer != "" {
      AlignReadsBack(Null, PointerSegments(pointer), id);
    }
  }

  /** After validation some request addresses a resource of each keyed operation, except a
      create that has a key and no key source: that one never finds an identifier. */
  lemma {:induction false} ValidatedIsAddressable(op: OperationEntry)
    requires WellFormedOperation(op) && op.store.Some? && !op.store.value.action.List?
    ensures
      var use := op.store.value;
      (exists req :: Addressed(use, req).Some?) <==> (use.action.Create? ==> use.keyFrom.Some?)
  {
    var use := op.store.value;
    var req := Helpful(use, "x");
    if use.keyFrom.Some? {
      HelpfulFinds(use, "x");
      assert Addressed(use, req).Some?;
    } else if !use.action.Create? {
      assert Addressed(use, req).Some?;
    }
  }

  /** Such a create is accepted by validation and always answers with a missing resource. */
  lemma {:induction false} KeyedCreateNeverFiles(use: StoreUse, rs: seq<Store.Resource>, limit: nat, req: Request)
    requires use.action.Create? && use.key.Some? && use.keyFrom.None?
    ensures forall name: string, verb: string, path: string, responses: seq<Override> ::
              !("/_specmock" <= path) ==> WellFormedOperation(OperationEntry(name, verb, path, Some(use), responses))
    ensures ApplyStore(rs, limit, use, req) == (rs, Err(ResourceNotFound(Namespace(use, req))))
  {
  }

  /** Every scenario of a validated sidecar is found by its name. */
  lemma {:induction false} ScenariosKeepTheirNames(sidecar: Sidecar, i: nat)
    requires WellFormed(sidecar) && i < |sidecar.scenarios|
    ensures FindScenario(sidecar.scenarios, sidecar.scenarios[i].name) == Some(sidecar.scenarios[i])
  {
    FoundAt(sidecar.scenarios, i);
  }

  lemma {:induction false} FoundAt(scenarios: seq<ScenarioEntry>, i: nat)
    requires i < |scenarios| && forall j, k :: 0 <= j < k < |scenarios| ==> scenarios[j].name != scenarios[k].name
    ensures FindScenario(scenarios, scenarios[i].name) == Some(scenarios[i])
  {
    if i > 0 {
      assert scenarios[1..][i - 1] == scenarios[i];
      FoundAt(scenarios[1..], i - 1);
    }
  }

  /** Every step of a validated sidecar is an operation of its catalogue, and leads to a state
      of its scenario. */
  lemma {:induction false} StepsAreDeclared(sidecar: Sidecar, i: nat, state: State, operation: string)
    requires WellFormed(sidecar) && i < |sidecar.scenarios|
    requires state in sidecar.scenarios[i].states && operation in sidecar.scenarios[i].states[state]
    ensures sidecar.version == 1
    ensures exists k :: 0 <= k < |sidecar.operations| && sidecar.operations[k].name == operation
    ensures
      var target := sidecar.scenarios[i].states[state][operation].target;
      target.Some? ==> target.value in sidecar.scenarios[i].states
  {
    assert WellFormedScenario(sidecar, sidecar.scenarios[i]);
    assert WellFormedState(sidecar, sidecar.scenarios[i], state);
    assert sidecar.Declares(operation);
  }

  // ---------------------------------------------------------------------------
  // Seeds and statuses
  // ---------------------------------------------------------------------------

  /** A seed item is filed under its id, shown as text, or under its place in the list. */
  lemma {:induction false} SeedIdMeaning(item: Json, index: nat)
    ensures
      match Get(item, "id")
      case None => Scalars.SpellsNatural(SeedId(item, index), index)
      case Some(v) =>
        && (v.Str? || v.Bool? || v.Int? || v.Dec? ==> Scalars.Shows(SeedId(item, index), v))
        && (v.Null? || v.Arr? || v.Obj? ==> SeedId(item, index) == Print(v))
  {
    Scalars.NatTextSpells(index);
    var id := Get(item, "id");
    if id.Some? && (id.value.Bool? || id.value.Int? || id.value.Dec?) {
      Scalars.PrintShows(id.value);
    }
  }

  /** A declared status below 65536 is itself, however many zeros lead it; what is not digits,
      after a plus sign at most, is none. */
  lemma {:induction false} StatusMeaning(text: string, n: nat)
    ensures n < 0x1_0000 ==> Text.ParseUnsigned(Text.NatText(n), 0x1_0000) == Some(n)
    ensures n >= 0x1_0000 ==> Text.ParseUnsigned(Text.NatText(n), 0x1_0000) == None
    ensures (exists i :: 0 < i < |text| && !('0' <= text[i] <= '9')) ==> Text.ParseUnsigned(text, 0x1_0000) == None
    ensures text == "" || text == "+" || (text[0] != '+' && !('0' <= text[0] <= '9')) ==> Text.ParseUnsigned(text, 0x1_0000) == None
  {
    PointerLaws.DigitsOfText(n);
    var digits := Text.NatText(n);
    assert digits[0] in digits;
    if i :| 0 < i < |text| && !('0' <= text[i] <= '9') {
      assert text[1..][i - 1] == text[i];
    }
  }
}
