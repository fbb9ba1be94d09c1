/** What scenario execution answers, as a function of the requests alone: a map from
    (scenario, session) to a current state and a list of resources in creation order. */
module RuntimeSpec {
  import opened Basics
  import opened JsonModel
  import opened ScenarioMachine
  import opened SidecarModel
  import opened StoreTypes
  import Store = StoreSpec
  import Template
  import Text

  const DEFAULT_SESSION: string := "__default__"

  datatype StatefulFailure =
    | UnknownScenario(requested: string, available: seq<string>)
    | IllegalOperation(scenario: string, session: string, state: State, operation: string)
    | ResourceNotFound(key: string)
    | ResourceExists(key: string)
    | SessionCapExceeded(limit: nat)
    | StoreCapExceeded(limit: nat)

  datatype Resolution =
    | Ungoverned
    | Body(value: Json)
    | Empty
    | Forced(status: nat, body: Option<Json>)
    | Failed(failure: StatefulFailure)

  /** What a create stores: the document its key came from, or always the generated reply. */
  datatype CreateValue = FollowKeySource | GeneratedReply

  datatype Request = Request(
    scenario: Option<string>, session: Option<string>,
    httpMethod: string, path: string, params: map<string, string>,
    body: Option<Json>, generated: Json,
    preferCode: bool, validated: bool, createValue: CreateValue)

  datatype SessionKey = SessionKey(scenario: string, session: string)

  datatype Instance = Instance(state: State, resources: seq<Store.Resource>)

  type Sessions = map<SessionKey, Instance>

  datatype Config = Config(sidecar: Sidecar, maxSessions: nat, maxStoreEntries: nat)

  // ---------------------------------------------------------------------------
  // Identifiers and pointers
  // ---------------------------------------------------------------------------

  /** The pointer's segments: every leading slash is dropped and nothing is unescaped. */
  function PointerSegments(pointer: string): (segments: seq<string>)
    ensures segments != []
  {
    Text.Split(Text.TrimStart(pointer, '/'), '/')
  }

  function Follow(v: Json, segments: seq<string>): Option<Json>
    decreases |segments|
  {
    if segments == [] then Some(v)
    else
      match Get(v, segments[0])
      case None => None
      case Some(child) => Follow(child, segments[1..])
  }

  function PointerValue(subject: Json, pointer: string): Option<string> {
    match Follow(subject, if pointer == "" then [] else PointerSegments(pointer))
    case None => None
    case Some(Str(text)) => Some(text)
    case Some(Null) => None
    case Some(other) => Some(Print(other))
  }

  function MembersOf(v: Json): seq<Member> {
    if v.Obj? then v.members else []
  }

  /** Write the identifier at the path, turning anything in the way into an object. */
  function Align(v: Json, segments: seq<string>, identifier: string): Json
    requires segments != []
    decreases |segments|
  {
    var members := MembersOf(v);
    if |segments| == 1 then Obj(Put(members, segments[0], Str(identifier)))
    else
      var child := match Find(members, segments[0]) case Some(c) => c case None => Obj([]);
      Obj(Put(members, segments[0], Align(child, segments[1..], identifier)))
  }

  function AlignIdentifier(v: Json, pointer: string, identifier: string): Json {
    if pointer == "" then v else Align(v, PointerSegments(pointer), identifier)
  }

  function ResolveCreateKey(use: StoreUse, body: Option<Json>, generated: Json): Option<string> {
    match use.keyFrom
    case None => None
    case Some(KeySource(Request, pointer)) => if body.None? then None else PointerValue(body.value, pointer)
    case Some(KeySource(Response, pointer)) => PointerValue(generated, pointer)
  }

  /** `{name}` with both braces names the parameter inside them. */
  function ParameterName(name: string): string {
    if |name| >= 2 && name[0] == '{' && name[|name| - 1] == '}' then name[1..|name| - 1] else name
  }

  function ResolveKey(use: StoreUse, params: map<string, string>, body: Option<Json>, generated: Json): Option<string> {
    if use.key.Some? && ParameterName(use.key.value) in params then Some(params[ParameterName(use.key.value)])
    else ResolveCreateKey(use, body, generated)
  }

  // ---------------------------------------------------------------------------
  // The store interaction of one operation
  // ---------------------------------------------------------------------------

  function MapStoreError(error: StoreError, key: StoreKey): StatefulFailure {
    match error
    case NotFound(_) => ResourceNotFound(key.Text())
    case AlreadyExists(_) => ResourceExists(key.Text())
    case CapacityExceeded(limit) => StoreCapExceeded(limit)
  }

  /** What a successful create files. */
  function CreatedValue(use: StoreUse, req: Request, id: string): Json {
    if req.createValue.FollowKeySource? && use.keyFrom.Some? && use.keyFrom.value.location.Request? then
      (match req.body case Some(v) => v case None => Null)
    else if req.createValue.GeneratedReply? && use.keyFrom.Some? then
      AlignIdentifier(req.generated, use.keyFrom.value.pointer, id)
    else req.generated
  }

  function Namespace(use: StoreUse, req: Request): string {
    Template.Substitute(use.resource, req.params)
  }

  /** The resource a keyed action is about, if its identifier can be found. */
  function Addressed(use: StoreUse, req: Request): Option<StoreKey> {
    var id := match use.action
      case List => None
      case Create => ResolveCreateKey(use, req.body, req.generated)
      case _ => ResolveKey(use, req.params, req.body, req.generated);
    match id
    case None => None
    case Some(text) => Some(StoreKey(Namespace(use, req), text))
  }

  type StoreOutcome = Result<Resolution, StatefulFailure>

  function Answered(r: Store.Answer, key: StoreKey, resolution: Resolution): StoreOutcome {
    match r
    case Ok(_) => Ok(resolution)
    case Err(error) => Err(MapStoreError(error, key))
  }

  function ApplyStore(rs: seq<Store.Resource>, limit: nat, use: StoreUse, req: Request): (seq<Store.Resource>, StoreOutcome) {
    if use.action.List? then (rs, Ok(Body(Arr(Store.List(rs, Namespace(use, req))))))
    else
      match Addressed(use, req)
      case None => (rs, Err(ResourceNotFound(Namespace(use, req))))
      case Some(key) =>
        match use.action
        case Create =>
          var value := CreatedValue(use, req, key.id);
          var (rs', r) := Store.Create(rs, limit, key, value);
          (rs', Answered(r, key, Body(value)))
        case Update =>
          var value := match req.body case Some(v) => v case None => Null;
          var (rs', r) := Store.Update(rs, key, value);
          (rs', Answered(r, key, Body(value)))
        case Delete =>
          var (rs', r) := Store.Delete(rs, key);
          (rs', Answered(r, key, Empty))
        case _ =>
          (rs, match Store.Lookup(rs, key)
               case Some(value) => Ok(Body(value))
               case None => Err(ResourceNotFound(key.Text())))
  }

  // ---------------------------------------------------------------------------
  // One request on one instance
  // ---------------------------------------------------------------------------

  /** The override in force: the transition's first, else the operation's first. */
  function ChosenOverride(m: Scenario, state: State, op: OperationEntry): Option<Override> {
    var step := match m.TransitionFor(state, op.name) case Some(t) => t.responses case None => [];
    if step != [] then Some(step[0])
    else if op.responses != [] then Some(op.responses[0])
    else None
  }

  /** An override pins the status, and the body only if it declares one; a failure stands. */
  function Overridden(outcome: Resolution, chosen: Option<Override>): Resolution {
    if outcome.Failed? || outcome.Forced? || chosen.None? then outcome
    else
      var status := match Text.ParseUnsigned(chosen.value.status, 0x1_0000) case Some(n) => n case None => 500;
      var kept := if outcome.Body? then Some(outcome.value) else None;
      Forced(status, if chosen.value.body.Some? then chosen.value.body else kept)
  }

  /** A refused or unvalidated request changes nothing; a valid one moves the state even
      when its store action fails. */
  function ServeInstance(entry: ScenarioEntry, op: OperationEntry, session: string, limit: nat, inst: Instance, req: Request)
    : (Instance, Resolution)
  {
    var m := entry.Machine();
    if !m.Allows(inst.state, op.name) then
      (inst, Failed(IllegalOperation(entry.name, session, inst.state, op.name)))
    else if !req.validated then (inst, Ungoverned)
    else
      var (rs, outcome) :=
        if op.store.None? then (inst.resources, Ungoverned)
        else
          var (rs, r) := ApplyStore(inst.resources, limit, op.store.value, req);
          (rs, match r case Ok(resolution) => resolution case Err(failure) => Failed(failure));
      var next := match m.NextState(inst.state, op.name) case Some(s) => s case None => inst.state;
      (Instance(next, rs), Overridden(outcome, ChosenOverride(m, inst.state, op)))
  }

  // ---------------------------------------------------------------------------
  // Sessions
  // ---------------------------------------------------------------------------

  function FindScenario(scenarios: seq<ScenarioEntry>, name: string): (r: Option<ScenarioEntry>)
    ensures r.Some? ==> r.value.name == name && r.value in scenarios
  {
    if scenarios == [] then None
    else if scenarios[0].name == name then Some(scenarios[0])
    else FindScenario(scenarios[1..], name)
  }

  function RequestKey(httpMethod: string, path: string): string {
    Text.AsciiLower(httpMethod) + " " + path
  }

  /** The catalogue is indexed by request key; a later entry replaces an earlier one. */
  function FindOperation(operations: seq<OperationEntry>, key: string): (r: Option<OperationEntry>)
    ensures r.Some? ==> r.value in operations
  {
    if operations == [] then None
    else
      var last := operations[|operations| - 1];
      if RequestKey(last.httpMethod, last.path) == key then Some(last)
      else FindOperation(operations[..|operations| - 1], key)
  }

  function Names(scenarios: seq<ScenarioEntry>): seq<string> {
    if scenarios == [] then [] else [scenarios[0].name] + Names(scenarios[1..])
  }

  function SeedId(item: Json, index: nat): string {
    match Get(item, "id")
    case None => Text.NatText(index)
    case Some(Str(text)) => text
    case Some(other) => Print(other)
  }

  /** Seeding skips an item whose create fails. */
  function SeedItems(rs: seq<Store.Resource>, limit: nat, namespace: string, items: seq<Json>, from: nat): seq<Store.Resource>
    decreases |items| - from
  {
    if from >= |items| then rs
    else
      var key := StoreKey(namespace, SeedId(items[from], from));
      SeedItems(Store.Create(rs, limit, key, items[from]).0, limit, namespace, items, from + 1)
  }

  function Seed(rs: seq<Store.Resource>, limit: nat, seeds: seq<SeedEntry>): seq<Store.Resource>
    decreases |seeds|
  {
    if seeds == [] then rs
    else Seed(SeedItems(rs, limit, seeds[0].resource, seeds[0].items, 0), limit, seeds[1..])
  }

  /** A newly built instance of a scenario. */
  function Fresh(cfg: Config, scenario: string): Instance {
    match FindScenario(cfg.sidecar.scenarios, scenario)
    case Some(entry) => Instance(entry.initial, Seed([], cfg.maxStoreEntries, entry.seed))
    case None => Instance("", [])
  }

  /** The instance a request is about, or the answer it gets without reaching one. */
  datatype Route = Direct(resolution: Resolution) | Governed(key: SessionKey, entry: ScenarioEntry, op: OperationEntry)

  function RouteOf(cfg: Config, req: Request): (r: Route)
    ensures r.Governed? ==> FindScenario(cfg.sidecar.scenarios, r.key.scenario) == Some(r.entry)
  {
    var scenarios := cfg.sidecar.scenarios;
    var name := if req.scenario.Some? then req.scenario.value else if scenarios != [] then scenarios[0].name else "";
    if req.preferCode then Direct(Ungoverned)
    else
      match FindScenario(scenarios, name)
      case None =>
        if req.scenario.Some? then Direct(Failed(UnknownScenario(req.scenario.value, Names(scenarios))))
        else Direct(Ungoverned)
      case Some(entry) =>
        match FindOperation(cfg.sidecar.operations, RequestKey(req.httpMethod, req.path))
        case None => Direct(Ungoverned)
        case Some(op) =>
          Governed(SessionKey(entry.name, if req.session.Some? then req.session.value else DEFAULT_SESSION), entry, op)
  }

  function Serve(cfg: Config, sessions: Sessions, req: Request): (Sessions, Resolution) {
    match RouteOf(cfg, req)
    case Direct(resolution) => (sessions, resolution)
    case Governed(key, entry, op) =>
      if key !in sessions && |sessions| >= cfg.maxSessions then
        (sessions, Failed(SessionCapExceeded(cfg.maxSessions)))
      else
        var inst := if key in sessions then sessions[key] else Fresh(cfg, key.scenario);
        var (inst', resolution) := ServeInstance(entry, op, key.session, cfg.maxStoreEntries, inst, req);
        (sessions[key := inst'], resolution)
  }

  function Reset(cfg: Config, sessions: Sessions): Sessions {
    map k | k in sessions :: Fresh(cfg, k.scenario)
  }

  datatype Command = Ask(req: Request) | Release(key: SessionKey) | ResetAll

  datatype Reply = Resolved(resolution: Resolution) | Released(found: bool) | ResetCount(n: nat)

  function Step(cfg: Config, sessions: Sessions, cmd: Command): (Sessions, Reply) {
    match cmd
    case Ask(req) => var (s, r) := Serve(cfg, sessions, req); (s, Resolved(r))
    case Release(key) => (sessions - {key}, Released(key in sessions))
    case ResetAll => (Reset(cfg, sessions), ResetCount(|sessions|))
  }

  function Run(cfg: Config, sessions: Sessions, cmds: seq<Command>): (Sessions, seq<Reply>)
    decreases |cmds|
  {
    if cmds == [] then (sessions, [])
    else
      var (s, reply) := Step(cfg, sessions, cmds[0]);
      var (s', replies) := Run(cfg, s, cmds[1..]);
      (s', [reply] + replies)
  }
}
