/** A scenario as a finite state machine, and which of its states can ever be current. */
module ScenarioMachine {
  import opened Basics
  import opened JsonModel
  import opened KeyOrder

  type State = string

  /** A declared response: the status it is keyed by, and a literal body if any. */
  datatype Override = Override(status: string, body: Option<Json>)

  /** What an operation does in one state; no target means it is legal and stays put.
      `responses` are in key order. */
  datatype Transition = Transition(target: Option<State>, responses: seq<Override>)

  datatype Scenario = Scenario(name: string, initial: State, states: map<State, map<string, Transition>>) {
    predicate Allows(state: State, operation: string) {
      state in states && operation in states[state]
    }

    function TransitionFor(state: State, operation: string): Option<Transition> {
      if state in states && operation in states[state] then Some(states[state][operation]) else None
    }

    function NextState(state: State, operation: string): Option<State> {
      match TransitionFor(state, operation)
      case None => None
      case Some(transition) => transition.target
    }

    /** Some operation of `a` moves to `b`. */
    ghost predicate Edge(a: State, b: State) {
      a in states && exists operation :: operation in states[a] && states[a][operation].target == Some(b)
    }

    ghost predicate Path(p: seq<State>) {
      && p != [] && p[0] == initial
      && forall i :: 0 < i < |p| ==> Edge(p[i - 1], p[i])
    }

    /** In the reflexive-transitive closure of the transitions from the initial state. */
    ghost predicate Reachable(s: State) {
      exists p :: Path(p) && p[|p| - 1] == s
    }

    /** Every state the exploration can meet, declared or not. */
    function Universe(): set<State> {
      {initial} + set a, operation | a in states && operation in states[a] && states[a][operation].target.Some?
                    :: states[a][operation].target.value
    }

    lemma {:induction false} InitialIsReachable()
      ensures Reachable(initial)
    {
      assert Path([initial]);
    }

    lemma {:induction false} ReachableStep(a: State, operation: string)
      requires Reachable(a) && NextState(a, operation).Some?
      ensures Reachable(NextState(a, operation).value)
    {
      var p :| Path(p) && p[|p| - 1] == a;
      var q := p + [NextState(a, operation).value];
      assert Edge(a, q[|q| - 1]);
      assert Path(q);
    }

    /** A set closed under transitions that holds the initial state holds every reachable one. */
    lemma {:induction false} ClosedHoldsPath(closed: set<State>, p: seq<State>)
      requires initial in closed && Path(p)
      requires forall a, b :: a in closed && Edge(a, b) ==> b in closed
      ensures p[|p| - 1] in closed
      decreases |p|
    {
      if |p| > 1 {
        var q := p[..|p| - 1];
        ClosedHoldsPath(closed, q);
        assert Edge(q[|q| - 1], p[|p| - 1]);
      }
    }

    lemma {:induction false} ClosedHoldsReachable(closed: set<State>, s: State)
      requires initial in closed && Reachable(s)
      requires forall a, b :: a in closed && Edge(a, b) ==> b in closed
      ensures s in closed
    {
      var p :| Path(p) && p[|p| - 1] == s;
      ClosedHoldsPath(closed, p);
    }
  }

  /** `next` has been pushed for every operation already looked at. */
  ghost predicate Pushed(operations: map<string, Transition>, left: set<string>, seen: set<State>, frontier: seq<State>) {
    forall o :: o in operations && o !in left && operations[o].target.Some?
      ==> operations[o].target.value in seen || operations[o].target.value in frontier
  }

  /** The declared states no run can reach, in key order: exactly those outside the closure
      of the transitions, on any graph. */
  method UnreachableStates(m: Scenario) returns (dead: seq<State>)
    ensures Sorted(dead) && forall s :: s in dead <==> s in m.states && !m.Reachable(s)
  {
    var reachable: set<State> := {};
    var frontier := [m.initial];
    m.InitialIsReachable();
    while frontier != []
      invariant forall s :: s in reachable ==> m.Reachable(s)
      invariant forall s :: s in frontier ==> m.Reachable(s) && s in m.Universe()
      invariant m.initial in reachable || m.initial in frontier
      invariant forall a :: a in reachable && a in m.states ==> Pushed(m.states[a], {}, reachable, frontier)
      decreases m.Universe() - reachable, |frontier|
    {
      var state := frontier[|frontier| - 1];
      ghost var before := frontier;
      frontier := frontier[..|frontier| - 1];
      assert forall s :: s in before <==> s in frontier || s == state;
      if state in reachable {
        continue;
      }
      reachable := reachable + {state};
      if state !in m.states {
        continue;
      }
      frontier := Expand(m, state, reachable, frontier);
    }
    forall a, b | a in reachable && m.Edge(a, b) ensures b in reachable {
      var operation :| operation in m.states[a] && m.states[a][operation].target == Some(b);
      assert Pushed(m.states[a], {}, reachable, frontier);
    }
    forall s | m.Reachable(s) ensures s in reachable {
      m.ClosedHoldsReachable(reachable, s);
    }
    dead := Outside(m.states.Keys, reachable);
  }

  /** The keys outside a set, in key order. */
  method Outside(keys: set<string>, inside: set<string>) returns (out: seq<string>)
    ensures Sorted(out) && forall k :: k in out <==> k in keys && k !in inside
  {
    var ordered := InKeyOrder(keys);
    out := [];
    for i := 0 to |ordered|
      invariant Sorted(out)
      invariant forall k :: k in out <==> k in ordered[..i] && k !in inside
    {
      assert forall k :: k in ordered[..i + 1] <==> k in ordered[..i] || k == ordered[i];
      if ordered[i] !in inside {
        forall j | 0 <= j < |out| ensures Less(out[j], ordered[i]) {
          assert out[j] in out;
          var n :| 0 <= n < i && ordered[n] == out[j];
        }
        out := out + [ordered[i]];
      }
    }
    assert ordered[..|ordered|] == ordered;
  }

  /** Push the target of every operation of one state. */
  method Expand(m: Scenario, state: State, ghost seen: set<State>, frontier: seq<State>) returns (out: seq<State>)
    requires state in m.states && m.Reachable(state)
    requires forall s :: s in frontier ==> m.Reachable(s) && s in m.Universe()
    ensures forall s :: s in frontier ==> s in out
    ensures forall s :: s in out ==> m.Reachable(s) && s in m.Universe()
    ensures Pushed(m.states[state], {}, seen, out)
  {
    var operations := m.states[state];
    var left := operations.Keys;
    out := frontier;
    while left != {}
      invariant left <= operations.Keys
      invariant forall s :: s in frontier ==> s in out
      invariant forall s :: s in out ==> m.Reachable(s) && s in m.Universe()
      invariant Pushed(operations, left, seen, out)
      decreases left
    {
      var operation :| operation in left;
      left := left - {operation};
      var target := operations[operation].target;
      if target.Some? {
        m.ReachableStep(state, operation);
        out := out + [target.value];
      }
    }
  }
}

/** The sidecar document and its load-time validation. */
module SidecarModel {
  import opened Basics
  import opened JsonModel
  import opened KeyOrder
  import opened ScenarioMachine

  const SUPPORTED_VERSION: nat := 1
  const CONTROL_PREFIX: string := "/_specmock"

  datatype StoreAction = Create | Read | Update | Delete | List

  datatype KeyLocation = Request | Response

  datatype KeySource = KeySource(location: KeyLocation, pointer: string)

  datatype StoreUse = StoreUse(
    resource: string, action: StoreAction, key: Option<string>, keyFrom: Option<KeySource>)

  datatype OperationEntry = OperationEntry(
    name: string, httpMethod: string, path: string, store: Option<StoreUse>, responses: seq<Override>)

  datatype SeedEntry = SeedEntry(resource: string, items: seq<Json>)

  datatype ScenarioEntry = ScenarioEntry(
    name: string, initial: State, seed: seq<SeedEntry>, states: map<State, map<string, Transition>>)
  {
    /** The machine the runtime and the warnings are built from. */
    function Machine(): Scenario {
      Scenario(name, initial, states)
    }
  }

  /** Operations are in key order, and their names are distinct. */
  datatype Sidecar = Sidecar(version: nat, operations: seq<OperationEntry>, scenarios: seq<ScenarioEntry>) {
    predicate Declares(operation: string) {
      exists i :: 0 <= i < |operations| && operations[i].name == operation
    }
  }

  datatype SidecarError =
    | UnsupportedVersion(found: nat)
    | UnknownTransitionTarget(scenario: string, state: State, target: State)
    | UnknownOperation(scenario: string, state: State, operation: string)
    | DuplicateScenario(scenario: string)
    | UnknownInitialState(scenario: string, initial: State)
    | MissingKey(operation: string, action: StoreAction)
    | BadKeyPointer(operation: string, pointer: string)

  predicate ValidPointer(pointer: string) {
    pointer == "" || "/" <= pointer
  }

  /** An operation with a store knows how to find its resource, and does not shadow the
      control endpoints. */
  predicate WellFormedOperation(entry: OperationEntry) {
    && !(CONTROL_PREFIX <= entry.path)
    && (entry.store.Some? ==>
          var use := entry.store.value;
          && (use.keyFrom.Some? ==> ValidPointer(use.keyFrom.value.pointer))
          && (use.action.List? || use.key.Some? || use.keyFrom.Some?))
  }

  predicate WellFormedStep(sidecar: Sidecar, entry: ScenarioEntry, operation: string, step: Transition) {
    && sidecar.Declares(operation)
    && (step.target.Some? ==> step.target.value in entry.states)
  }

  predicate WellFormedState(sidecar: Sidecar, entry: ScenarioEntry, state: State) {
    state in entry.states ==>
      forall o :: o in entry.states[state] ==> WellFormedStep(sidecar, entry, o, entry.states[state][o])
  }

  predicate WellFormedScenario(sidecar: Sidecar, entry: ScenarioEntry) {
    && entry.initial in entry.states
    && forall s :: s in entry.states ==> WellFormedState(sidecar, entry, s)
  }

  predicate WellFormed(sidecar: Sidecar) {
    && sidecar.version == SUPPORTED_VERSION
    && (forall i :: 0 <= i < |sidecar.operations| ==> WellFormedOperation(sidecar.operations[i]))
    && (forall i, j :: 0 <= i < j < |sidecar.scenarios| ==> sidecar.scenarios[i].name != sidecar.scenarios[j].name)
    && (forall i :: 0 <= i < |sidecar.scenarios| ==> WellFormedScenario(sidecar, sidecar.scenarios[i]))
  }

  /** The step an error points at really is in the document, with the fault it names. */
  ghost predicate StepFault(entry: ScenarioEntry, state: State, operation: string, step: Transition) {
    state in entry.states && operation in entry.states[state] && entry.states[state][operation] == step
  }

  /** What each error claims of the document. */
  ghost predicate Describes(error: SidecarError, sidecar: Sidecar) {
    match error
    case UnsupportedVersion(found) => found == sidecar.version != SUPPORTED_VERSION
    case BadKeyPointer(operation, pointer) =>
      exists e :: e in sidecar.operations && e.name == operation && e.store.Some? && e.store.value.keyFrom.Some?
        && e.store.value.keyFrom.value.pointer == pointer && !ValidPointer(pointer)
    case MissingKey(operation, action) =>
      exists e :: e in sidecar.operations && e.name == operation && e.store.Some?
        && e.store.value.action == action && !action.List?
        && e.store.value.key.None? && e.store.value.keyFrom.None?
    case DuplicateScenario(name) =>
      exists i, j :: 0 <= i < j < |sidecar.scenarios|
        && sidecar.scenarios[i].name == sidecar.scenarios[j].name == name
    case UnknownInitialState(name, initial) =>
      exists e :: e in sidecar.scenarios && e.name == name && e.initial == initial && initial !in e.states
    case UnknownOperation(name, state, operation) =>
      || (!sidecar.Declares(operation)
          && exists e, step :: e in sidecar.scenarios && e.name == name && StepFault(e, state, operation, step))
      || exists e :: e in sidecar.operations && CONTROL_PREFIX <= e.path && error == Reserved(e)
    case UnknownTransitionTarget(name, state, target) =>
      exists e, operation, step :: e in sidecar.scenarios && e.name == name
        && StepFault(e, state, operation, step) && step.target == Some(target) && target !in e.states
  }

  /** A reserved path is reported as an unknown operation, with the reason for a name. */
  function Reserved(entry: OperationEntry): SidecarError {
    UnknownOperation("-", "-", entry.name + " declares '" + entry.path + "', which is reserved")
  }

  // ---------------------------------------------------------------------------
  // Which fault is reported: the first, in document order
  // ---------------------------------------------------------------------------

  function OperationError(entry: OperationEntry): SidecarError
    requires !WellFormedOperation(entry)
  {
    if entry.store.Some? && entry.store.value.keyFrom.Some? && !ValidPointer(entry.store.value.keyFrom.value.pointer) then
      BadKeyPointer(entry.name, entry.store.value.keyFrom.value.pointer)
    else if entry.store.Some? && !entry.store.value.action.List? && entry.store.value.key.None? && entry.store.value.keyFrom.None? then
      MissingKey(entry.name, entry.store.value.action)
    else Reserved(entry)
  }

  function StepError(sidecar: Sidecar, entry: ScenarioEntry, state: State, operation: string, step: Transition): SidecarError
    requires !WellFormedStep(sidecar, entry, operation, step)
  {
    if !sidecar.Declares(operation) then UnknownOperation(entry.name, state, operation)
    else UnknownTransitionTarget(entry.name, state, step.target.value)
  }

  /** The error is about the first ill-formed step of the state. */
  ghost predicate FirstOfState(sidecar: Sidecar, entry: ScenarioEntry, state: State, error: SidecarError)
    requires state in entry.states
  {
    var steps := entry.states[state];
    exists o :: o in steps && !WellFormedStep(sidecar, entry, o, steps[o])
      && error == StepError(sidecar, entry, state, o, steps[o])
      && forall p :: p in steps && Less(p, o) ==> WellFormedStep(sidecar, entry, p, steps[p])
  }

  ghost predicate FirstOfScenario(sidecar: Sidecar, entry: ScenarioEntry, error: SidecarError) {
    if entry.initial !in entry.states then error == UnknownInitialState(entry.name, entry.initial)
    else
      exists s :: s in entry.states && !WellFormedState(sidecar, entry, s) && FirstOfState(sidecar, entry, s, error)
        && forall t :: t in entry.states && Less(t, s) ==> WellFormedState(sidecar, entry, t)
  }

  predicate Repeats(sidecar: Sidecar, i: nat)
    requires i < |sidecar.scenarios|
  {
    exists k :: 0 <= k < i && sidecar.scenarios[k].name == sidecar.scenarios[i].name
  }

  predicate FaultyScenario(sidecar: Sidecar, i: nat)
    requires i < |sidecar.scenarios|
  {
    Repeats(sidecar, i) || !WellFormedScenario(sidecar, sidecar.scenarios[i])
  }

  ghost predicate FirstOperation(sidecar: Sidecar, i: nat, error: SidecarError) {
    && i < |sidecar.operations| && !WellFormedOperation(sidecar.operations[i])
    && (forall k :: 0 <= k < i ==> WellFormedOperation(sidecar.operations[k]))
    && error == OperationError(sidecar.operations[i])
  }

  ghost predicate FirstScenario(sidecar: Sidecar, i: nat, error: SidecarError) {
    && i < |sidecar.scenarios| && FaultyScenario(sidecar, i)
    && (forall k :: 0 <= k < i ==> !FaultyScenario(sidecar, k))
    && if Repeats(sidecar, i) then error == DuplicateScenario(sidecar.scenarios[i].name)
       else FirstOfScenario(sidecar, sidecar.scenarios[i], error)
  }

  /** The version, then the operations in key order, then the scenarios as listed, with
      their states and steps in key order. */
  ghost predicate First(sidecar: Sidecar, error: SidecarError) {
    if sidecar.version != SUPPORTED_VERSION then error == UnsupportedVersion(sidecar.version)
    else if exists i :: 0 <= i < |sidecar.operations| && !WellFormedOperation(sidecar.operations[i]) then
      exists i :: FirstOperation(sidecar, i, error)
    else exists i :: FirstScenario(sidecar, i, error)
  }

  method ValidateOperation(entry: OperationEntry) returns (r: Result<(), SidecarError>)
    ensures r.Ok? <==> WellFormedOperation(entry)
    ensures r.Err? ==> r.error == OperationError(entry)
    ensures r.Err? ==> forall sidecar: Sidecar :: entry in sidecar.operations ==> Describes(r.error, sidecar)
  {
    if entry.store.Some? {
      var use := entry.store.value;
      if use.keyFrom.Some? && !ValidPointer(use.keyFrom.value.pointer) {
        return Err(BadKeyPointer(entry.name, use.keyFrom.value.pointer));
      }
      if !use.action.List? && use.key.None? && use.keyFrom.None? {
        return Err(MissingKey(entry.name, use.action));
      }
    }
    if CONTROL_PREFIX <= entry.path {
      return Err(Reserved(entry));
    }
    return Ok(());
  }

  method ValidateState(sidecar: Sidecar, entry: ScenarioEntry, state: State) returns (r: Result<(), SidecarError>)
    requires entry in sidecar.scenarios && state in entry.states
    ensures r.Ok? <==> WellFormedState(sidecar, entry, state)
    ensures r.Err? ==> Describes(r.error, sidecar) && FirstOfState(sidecar, entry, state, r.error)
  {
    var steps := entry.states[state];
    var ordered := InKeyOrder(steps.Keys);
    for i := 0 to |ordered|
      invariant forall k :: 0 <= k < i ==> WellFormedStep(sidecar, entry, ordered[k], steps[ordered[k]])
    {
      var o := ordered[i];
      assert o in ordered;
      var step := steps[o];
      assert StepFault(entry, state, o, step);
      EarlierAre(ordered, i, steps.Keys);
      if !sidecar.Declares(o) {
        return Err(UnknownOperation(entry.name, state, o));
      }
      if step.target.Some? && step.target.value !in entry.states {
        return Err(UnknownTransitionTarget(entry.name, state, step.target.value));
      }
    }
    return Ok(());
  }

  /** What comes before a key is what has been visited. */
  lemma {:induction false} EarlierAre(ordered: seq<string>, i: nat, keys: set<string>)
    requires Sorted(ordered) && i < |ordered| && forall k :: k in ordered <==> k in keys
    ensures forall k :: k in keys && Less(k, ordered[i]) ==> k in ordered[..i]
  {
    forall k | k in keys && Less(k, ordered[i]) ensures k in ordered[..i] {
      var n :| 0 <= n < |ordered| && ordered[n] == k;
      LessIsStrict(k, ordered[i]);
      assert n < i;
      assert ordered[..i][n] == k;
    }
  }

  method ValidateScenario(sidecar: Sidecar, entry: ScenarioEntry) returns (r: Result<(), SidecarError>)
    requires entry in sidecar.scenarios
    ensures r.Ok? <==> WellFormedScenario(sidecar, entry)
    ensures r.Err? ==> Describes(r.error, sidecar) && FirstOfScenario(sidecar, entry, r.error)
  {
    if entry.initial !in entry.states {
      return Err(UnknownInitialState(entry.name, entry.initial));
    }
    var ordered := InKeyOrder(entry.states.Keys);
    for i := 0 to |ordered|
      invariant forall k :: 0 <= k < i ==> WellFormedState(sidecar, entry, ordered[k])
    {
      assert ordered[i] in ordered;
      EarlierAre(ordered, i, entry.states.Keys);
      r := ValidateState(sidecar, entry, ordered[i]);
      if r.Err? {
        return;
      }
    }
    return Ok(());
  }

  /** Accepts exactly the well-formed documents; a rejection names a real fault, and it is
      the first one. */
  method Validate(sidecar: Sidecar) returns (r: Result<(), SidecarError>)
    ensures r.Ok? <==> WellFormed(sidecar)
    ensures r.Err? ==> Describes(r.error, sidecar) && First(sidecar, r.error)
  {
    if sidecar.version != SUPPORTED_VERSION {
      return Err(UnsupportedVersion(sidecar.version));
    }
    for i := 0 to |sidecar.operations|
      invariant forall k :: 0 <= k < i ==> WellFormedOperation(sidecar.operations[k])
    {
      assert sidecar.operations[i] in sidecar.operations;
      r := ValidateOperation(sidecar.operations[i]);
      if r.Err? {
        assert FirstOperation(sidecar, i, r.error);
        return;
      }
    }
    r := ValidateScenarios(sidecar);
  }

  method ValidateScenarios(sidecar: Sidecar) returns (r: Result<(), SidecarError>)
    requires sidecar.version == SUPPORTED_VERSION
    requires forall i :: 0 <= i < |sidecar.operations| ==> WellFormedOperation(sidecar.operations[i])
    ensures r.Ok? <==> WellFormed(sidecar)
    ensures r.Err? ==> Describes(r.error, sidecar) && First(sidecar, r.error)
  {
    var seen: set<string> := {};
    for i := 0 to |sidecar.scenarios|
      invariant forall n :: n in seen <==> exists k :: 0 <= k < i && sidecar.scenarios[k].name == n
      invariant forall k :: 0 <= k < i ==> !FaultyScenario(sidecar, k)
    {
      var entry := sidecar.scenarios[i];
      if entry.name in seen {
        assert Repeats(sidecar, i);
        r := Err(DuplicateScenario(entry.name));
        assert FirstScenario(sidecar, i, r.error);
        return;
      }
      assert !Repeats(sidecar, i);
      seen := seen + {entry.name};
      r := ValidateScenario(sidecar, entry);
      if r.Err? {
        assert FirstScenario(sidecar, i, r.error);
        return;
      }
    }
    forall i, j | 0 <= i < j < |sidecar.scenarios| ensures sidecar.scenarios[i].name != sidecar.scenarios[j].name {
      assert !FaultyScenario(sidecar, j) && !Repeats(sidecar, j);
    }
    forall i | 0 <= i < |sidecar.scenarios| ensures WellFormedScenario(sidecar, sidecar.scenarios[i]) {
      assert !FaultyScenario(sidecar, i);
    }
    return Ok(());
  }

  /** Which error is reported is settled by the document. */
  lemma {:induction false} FirstIsUnique(sidecar: Sidecar, a: SidecarError, b: SidecarError)
    requires First(sidecar, a) && First(sidecar, b)
    ensures a == b
  {
    if sidecar.version == SUPPORTED_VERSION {
      if exists i :: 0 <= i < |sidecar.operations| && !WellFormedOperation(sidecar.operations[i]) {
        var i :| FirstOperation(sidecar, i, a);
        var j :| FirstOperation(sidecar, j, b);
        FirstOperationIsUnique(sidecar, i, j, a, b);
      } else {
        var i :| FirstScenario(sidecar, i, a);
        var j :| FirstScenario(sidecar, j, b);
        FirstScenarioIsUnique(sidecar, i, j, a, b);
      }
    }
  }

  lemma {:induction false} FirstOperationIsUnique(sidecar: Sidecar, i: nat, j: nat, a: SidecarError, b: SidecarError)
    requires FirstOperation(sidecar, i, a) && FirstOperation(sidecar, j, b)
    ensures a == b
  {
    assert i == j;
  }

  lemma {:induction false} FirstScenarioIsUnique(sidecar: Sidecar, i: nat, j: nat, a: SidecarError, b: SidecarError)
    requires FirstScenario(sidecar, i, a) && FirstScenario(sidecar, j, b)
    ensures a == b
  {
    assert i == j;
    if !Repeats(sidecar, i) {
      FirstOfScenarioIsUnique(sidecar, sidecar.scenarios[i], a, b);
    }
  }

  lemma {:induction false} FirstOfScenarioIsUnique(sidecar: Sidecar, entry: ScenarioEntry, a: SidecarError, b: SidecarError)
    requires FirstOfScenario(sidecar, entry, a) && FirstOfScenario(sidecar, entry, b)
    ensures a == b
  {
    if entry.initial in entry.states {
      var s :| s in entry.states && !WellFormedState(sidecar, entry, s) && FirstOfState(sidecar, entry, s, a)
        && forall t :: t in entry.states && Less(t, s) ==> WellFormedState(sidecar, entry, t);
      var t :| t in entry.states && !WellFormedState(sidecar, entry, t) && FirstOfState(sidecar, entry, t, b)
        && forall u :: u in entry.states && Less(u, t) ==> WellFormedState(sidecar, entry, u);
      LessIsTotal(s, t);
      FirstOfStateIsUnique(sidecar, entry, s, a, b);
    }
  }

  lemma {:induction false} FirstOfStateIsUnique(sidecar: Sidecar, entry: ScenarioEntry, state: State, a: SidecarError, b: SidecarError)
    requires state in entry.states && FirstOfState(sidecar, entry, state, a) && FirstOfState(sidecar, entry, state, b)
    ensures a == b
  {
    var steps := entry.states[state];
    var o :| o in steps && !WellFormedStep(sidecar, entry, o, steps[o])
      && a == StepError(sidecar, entry, state, o, steps[o])
      && forall p :: p in steps && Less(p, o) ==> WellFormedStep(sidecar, entry, p, steps[p]);
    var p :| p in steps && !WellFormedStep(sidecar, entry, p, steps[p])
      && b == StepError(sidecar, entry, state, p, steps[p])
      && forall q :: q in steps && Less(q, p) ==> WellFormedStep(sidecar, entry, q, steps[q]);
    LessIsTotal(o, p);
  }
}

/** Requests on one instance, interleaved: each takes a snapshot of the state, touches
    the store, and later moves the state, with resets at any point. */
module InstanceProtocol {
  import opened Basics
  import opened ScenarioMachine
  import opened SidecarModel

  datatype Phase =
    | Arriving(operation: string, validated: bool)
    | Storing(operation: string, snapshot: State)
    | Moving(operation: string, snapshot: State)
    | Replied

  datatype Instance = Instance(current: State, callers: map<nat, Phase>)

  datatype Action = Arrive(caller: nat, operation: string, validated: bool) | Advance(caller: nat) | Reset

  function Step(m: Scenario, s: Instance, a: Action): Instance {
    match a
    case Arrive(t, operation, validated) =>
      if t in s.callers && !s.callers[t].Replied? then s
      else s.(callers := s.callers[t := Arriving(operation, validated)])
    case Reset => s.(current := m.initial)
    case Advance(t) =>
      if t !in s.callers then s
      else
        match s.callers[t]
        case Arriving(operation, validated) =>
          if m.Allows(s.current, operation) && validated
          then s.(callers := s.callers[t := Storing(operation, s.current)])
          else s.(callers := s.callers[t := Replied])
        case Storing(operation, snapshot) => s.(callers := s.callers[t := Moving(operation, snapshot)])
        case Moving(operation, snapshot) =>
          (match m.NextState(snapshot, operation)
           case Some(next) => Instance(next, s.callers[t := Replied])
           case None => s.(callers := s.callers[t := Replied]))
        case Replied => s
  }

  function Run(m: Scenario, s: Instance, schedule: seq<Action>): Instance
    decreases |schedule|
  {
    if schedule == [] then s else Run(m, Step(m, s, schedule[0]), schedule[1..])
  }

  /** The current state and every snapshot still in flight are reachable. */
  ghost predicate OnTrack(m: Scenario, s: Instance) {
    && m.Reachable(s.current)
    && forall t :: t in s.callers && (s.callers[t].Storing? || s.callers[t].Moving?)
         ==> m.Reachable(s.callers[t].snapshot)
  }

  lemma {:induction false} StepStaysOnTrack(m: Scenario, s: Instance, a: Action)
    requires OnTrack(m, s)
    ensures OnTrack(m, Step(m, s, a))
  {
    match a
    case Reset => m.InitialIsReachable();
    case Advance(t) =>
      if t in s.callers && s.callers[t].Moving? && m.NextState(s.callers[t].snapshot, s.callers[t].operation).Some? {
        m.ReachableStep(s.callers[t].snapshot, s.callers[t].operation);
      }
    case _ =>
  }

  lemma {:induction false} RunStaysOnTrack(m: Scenario, s: Instance, schedule: seq<Action>)
    requires OnTrack(m, s)
    ensures OnTrack(m, Run(m, s, schedule))
    decreases |schedule|
  {
    if schedule != [] {
      StepStaysOnTrack(m, s, schedule[0]);
      RunStaysOnTrack(m, Step(m, s, schedule[0]), schedule[1..]);
    }
  }

  /** A reachable state of a validated scenario is declared. */
  lemma {:induction false} ReachableIsDeclared(sidecar: Sidecar, entry: ScenarioEntry, s: State)
    requires WellFormedScenario(sidecar, entry) && entry.Machine().Reachable(s)
    ensures s in entry.states
  {
    var m := entry.Machine();
    forall a, b | a in entry.states.Keys && m.Edge(a, b) ensures b in entry.states.Keys {
      var operation :| operation in m.states[a] && m.states[a][operation].target == Some(b);
      assert WellFormedState(sidecar, entry, a);
    }
    m.ClosedHoldsReachable(entry.states.Keys, s);
  }

  /** With a validated sidecar, whatever the interleaving, the current state is declared
      and reachable: never one that the load-time report calls dead. */
  lemma {:induction false} CurrentIsNeverDead(sidecar: Sidecar, entry: ScenarioEntry, schedule: seq<Action>, dead: seq<State>)
    requires WellFormed(sidecar) && entry in sidecar.scenarios
    requires forall s :: s in dead <==> s in entry.states && !entry.Machine().Reachable(s)
    ensures
      var m := entry.Machine();
      var s := Run(m, Instance(m.initial, map[]), schedule).current;
      m.Reachable(s) && s in entry.states && s !in dead
  {
    var m := entry.Machine();
    m.InitialIsReachable();
    RunStaysOnTrack(m, Instance(m.initial, map[]), schedule);
    assert WellFormedScenario(sidecar, entry);
    ReachableIsDeclared(sidecar, entry, Run(m, Instance(m.initial, map[]), schedule).current);
  }

  // ---------------------------------------------------------------------------
  // One request at a time, and two at once
  // ---------------------------------------------------------------------------

  /** A request with nothing in between: arrival, snapshot, store, move. */
  function Whole(t: nat, operation: string, validated: bool): seq<Action> {
    [Arrive(t, operation, validated), Advance(t), Advance(t), Advance(t)]
  }

  function Target(m: Scenario, state: State, operation: string): State {
    if state in m.states && operation in m.states[state] && m.states[state][operation].target.Some?
    then m.states[state][operation].target.value else state
  }

  lemma {:induction false} FourSteps(m: Scenario, s: Instance, a: Action, b: Action, c: Action, d: Action)
    ensures Run(m, s, [a, b, c, d]) == Step(m, Step(m, Step(m, Step(m, s, a), b), c), d)
  {
    var three, two, one := [b, c, d], [c, d], [d];
    assert [a, b, c, d][1..] == three && three[1..] == two && two[1..] == one && |one[1..]| == 0;
    var x := Step(m, s, a);
    var y := Step(m, x, b);
    var z := Step(m, y, c);
    assert Run(m, s, [a, b, c, d]) == Run(m, x, three) == Run(m, y, two) == Run(m, z, one);
    assert Run(m, z, one) == Run(m, Step(m, z, d), one[1..]);
  }

  /** Served alone, a validated request that is legal moves the state to its target, if it
      has one; any other leaves it. */
  lemma {:induction false} AloneMovesAsDeclared(m: Scenario, s: Instance, t: nat, operation: string, validated: bool)
    requires t !in s.callers || s.callers[t].Replied?
    ensures
      var after := Run(m, s, Whole(t, operation, validated));
      && after.current == (if validated then Target(m, s.current, operation) else s.current)
      && after.callers == s.callers[t := Replied]
  {
    FourSteps(m, s, Arrive(t, operation, validated), Advance(t), Advance(t), Advance(t));
  }

  /** Two requests can be admitted on one snapshot although neither is legal after the
      other; the one that moves last decides the state. */
  lemma {:induction false} BothAdmitted(m: Scenario, a: string, b: string, x: State, y: State) returns (schedule: seq<Action>)
    requires m.initial in m.states && a in m.states[m.initial] && b in m.states[m.initial]
    requires m.states[m.initial][a].target == Some(x) && m.states[m.initial][b].target == Some(y)
    requires !m.Allows(x, b) && !m.Allows(y, a)
    ensures
      var start := Instance(m.initial, map[]);
      && Run(m, start, schedule).current == y
      && Run(m, start, Whole(0, a, true) + Whole(1, b, true)).current == x
  {
    var start := Instance(m.initial, map[]);
    var open := [Arrive(0, a, true), Arrive(1, b, true), Advance(0), Advance(1)];
    var close := [Advance(0), Advance(0), Advance(1), Advance(1)];
    schedule := open + close;
    RunParts(m, start, open, close);
    FourSteps(m, start, open[0], open[1], open[2], open[3]);
    var both := Run(m, start, open);
    assert both.current == m.initial && both.callers[0] == Storing(a, m.initial) && both.callers[1] == Storing(b, m.initial);
    FourSteps(m, both, close[0], close[1], close[2], close[3]);
    RunParts(m, start, Whole(0, a, true), Whole(1, b, true));
    AloneMovesAsDeclared(m, start, 0, a, true);
    AloneMovesAsDeclared(m, Run(m, start, Whole(0, a, true)), 1, b, true);
  }

  lemma {:induction false} RunParts(m: Scenario, s: Instance, x: seq<Action>, y: seq<Action>)
    ensures Run(m, s, x + y) == Run(m, Run(m, s, x), y)
    decreases |x|
  {
    if x == [] {
      assert x + y == y;
    } else {
      assert (x + y)[1..] == x[1..] + y;
      RunParts(m, Step(m, s, x[0]), x[1..], y);
    }
  }
}
