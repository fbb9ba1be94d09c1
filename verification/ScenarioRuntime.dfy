/** Scenario execution as written: instances on the heap, each a state cell and a store,
    found through a session map.  Every operation refines the specification. */
module ScenarioRuntime {
  import opened Basics
  import opened JsonModel
  import opened ScenarioMachine
  import opened SidecarModel
  import opened StoreTypes
  import opened StoreModel
  import Spec = RuntimeSpec
  import StoreSpec
  import Template

  class Instance {
    const scenario: string
    const initial: State
    var state: State
    const store: Store
    const seed: seq<SeedEntry>

    ghost predicate Valid()
      reads this, store
    {
      store.Valid()
    }

    ghost function Value(): Spec.Instance
      reads this, store
    {
      Spec.Instance(state, store.resources)
    }

    constructor (scenario: string, initial: State, seed: seq<SeedEntry>, limit: nat)
      ensures Valid() && fresh(store)
      ensures this.scenario == scenario && this.initial == initial && this.seed == seed && store.limit == limit
      ensures Value() == Spec.Instance(initial, Spec.Seed([], limit, seed))
    {
      this.scenario, this.initial, this.seed := scenario, initial, seed;
      state := initial;
      store := new Store(limit);
      new;
      ApplySeed();
    }

    method ApplySeed()
      requires Valid()
      modifies store
      ensures Valid()
      ensures store.resources == Spec.Seed(old(store.resources), store.limit, seed)
    {
      for i := 0 to |seed|
        invariant Valid()
        invariant Spec.Seed(store.resources, store.limit, seed[i..]) == Spec.Seed(old(store.resources), store.limit, seed)
      {
        assert seed[i..][0] == seed[i] && seed[i..][1..] == seed[i + 1..];
        SeedNamespace(seed[i].resource, seed[i].items);
      }
    }

    method SeedNamespace(namespace: string, items: seq<Json>)
      requires Valid()
      modifies store
      ensures Valid()
      ensures store.resources == Spec.SeedItems(old(store.resources), store.limit, namespace, items, 0)
    {
      for index := 0 to |items|
        invariant Valid()
        invariant Spec.SeedItems(store.resources, store.limit, namespace, items, index)
               == Spec.SeedItems(old(store.resources), store.limit, namespace, items, 0)
      {
        var _ := store.Create(StoreKey(namespace, Spec.SeedId(items[index], index)), items[index]);
      }
    }

    method MoveTo(next: State)
      modifies this
      ensures state == next
    {
      state := next;
    }

    method Reset()
      requires Valid()
      modifies this, store
      ensures Valid()
      ensures Value() == Spec.Instance(initial, Spec.Seed([], store.limit, seed))
    {
      state := initial;
      var _ := store.Clear();
      ApplySeed();
    }
  }

  /** Follow a pointer segment by segment; a missing segment or a null finds nothing. */
  method ReadPointer(subject: Json, pointer: string) returns (r: Option<string>)
    ensures r == Spec.PointerValue(subject, pointer)
  {
    var node := subject;
    if pointer != "" {
      var segments := Spec.PointerSegments(pointer);
      assert segments[0..] == segments;
      for i := 0 to |segments|
        invariant Spec.Follow(node, segments[i..]) == Spec.Follow(subject, segments)
      {
        assert segments[i..][0] == segments[i] && segments[i..][1..] == segments[i + 1..];
        var child := Get(node, segments[i]);
        if child.None? {
          return None;
        }
        node := child.value;
      }
    }
    r := match node case Str(text) => Some(text) case Null => None case other => Some(Print(other));
  }

  method FindCreateKey(use: StoreUse, req: Spec.Request) returns (r: Option<string>)
    ensures r == Spec.ResolveCreateKey(use, req.body, req.generated)
  {
    if use.keyFrom.None? {
      return None;
    }
    var source := use.keyFrom.value;
    if source.location.Response? {
      r := ReadPointer(req.generated, source.pointer);
    } else if req.body.None? {
      r := None;
    } else {
      r := ReadPointer(req.body.value, source.pointer);
    }
  }

  /** The store interaction of one operation. */
  method ApplyStore(store: Store, use: StoreUse, req: Spec.Request) returns (r: Spec.StoreOutcome)
    requires store.Valid()
    modifies store
    ensures store.Valid()
    ensures (store.resources, r) == Spec.ApplyStore(old(store.resources), store.limit, use, req)
  {
    var namespace := Template.SubstitutePathParams(use.resource, req.params);
    if use.action.List? {
      var values := store.List(namespace);
      return Ok(Spec.Body(Arr(values)));
    }
    if use.action.Create? {
      var id := FindCreateKey(use, req);
      if id.None? {
        return Err(Spec.ResourceNotFound(namespace));
      }
      var key := StoreKey(namespace, id.value);
      var value := Spec.CreatedValue(use, req, id.value);
      var answer := store.Create(key, value);
      return Spec.Answered(answer, key, Spec.Body(value));
    }
    var id := None;
    if use.key.Some? && Spec.ParameterName(use.key.value) in req.params {
      id := Some(req.params[Spec.ParameterName(use.key.value)]);
    } else {
      id := FindCreateKey(use, req);
    }
    if id.None? {
      return Err(Spec.ResourceNotFound(namespace));
    }
    r := ApplyKeyed(store, use, req, StoreKey(namespace, id.value));
  }

  method ApplyKeyed(store: Store, use: StoreUse, req: Spec.Request, key: StoreKey) returns (r: Spec.StoreOutcome)
    requires store.Valid() && !use.action.List? && !use.action.Create? && Spec.Addressed(use, req) == Some(key)
    modifies store
    ensures store.Valid()
    ensures (store.resources, r) == Spec.ApplyStore(old(store.resources), store.limit, use, req)
  {
    if use.action.Read? {
      var found := store.Read(key);
      return if found.Some? then Ok(Spec.Body(found.value)) else Err(Spec.ResourceNotFound(key.Text()));
    } else if use.action.Update? {
      var value := match req.body case Some(v) => v case None => Null;
      var answer := store.Update(key, value);
      return Spec.Answered(answer, key, Spec.Body(value));
    } else {
      var answer := store.Delete(key);
      return Spec.Answered(answer, key, Spec.Empty);
    }
  }

  /** One request on one instance: legality against a snapshot, the store, the override,
      then the move. */
  method ServeOn(inst: Instance, entry: ScenarioEntry, op: OperationEntry, session: string, req: Spec.Request)
    returns (outcome: Spec.Resolution)
    requires inst.Valid()
    modifies inst, inst.store
    ensures inst.Valid()
    ensures (inst.Value(), outcome)
         == Spec.ServeInstance(entry, op, session, inst.store.limit, old(inst.Value()), req)
  {
    var machine := entry.Machine();
    var state := inst.state;
    if !machine.Allows(state, op.name) {
      return Spec.Failed(Spec.IllegalOperation(entry.name, session, state, op.name));
    }
    if !req.validated {
      return Spec.Ungoverned;
    }
    outcome := Spec.Ungoverned;
    if op.store.Some? {
      var result := ApplyStore(inst.store, op.store.value, req);
      outcome := match result case Ok(resolution) => resolution case Err(failure) => Spec.Failed(failure);
    }
    outcome := Spec.Overridden(outcome, Spec.ChosenOverride(machine, state, op));
    var next := machine.NextState(state, op.name);
    if next.Some? {
      inst.MoveTo(next.value);
    }
  }

  class Runtime {
    const cfg: Spec.Config
    const byRequest: map<string, OperationEntry>
    var sessions: map<Spec.SessionKey, Instance>
    /** The abstract sessions. */
    ghost var view: Spec.Sessions

    /** The instances and stores this runtime owns, and perhaps some it has let go. */
    ghost var Repr: set<object>

    /** The instance under `k` belongs to that scenario, is cut to the configured size, and
        holds what the view says. */
    ghost predicate Placed(k: Spec.SessionKey)
      reads this, Repr
    {
      && k in sessions && k in view && sessions[k] in Repr && sessions[k].store in Repr
      && var inst, entry := sessions[k], Spec.FindScenario(cfg.sidecar.scenarios, k.scenario);
      && inst.Valid() && inst.store.limit == cfg.maxStoreEntries && inst.Value() == view[k]
      && entry.Some? && inst.initial == entry.value.initial && inst.seed == entry.value.seed
    }

    ghost predicate Unshared()
      reads this
    {
      forall j, k :: j in sessions && k in sessions && j != k ==>
        sessions[j] != sessions[k] && sessions[j].store != sessions[k].store
    }

    ghost predicate Valid()
      reads this, Repr
    {
      && this !in Repr && view.Keys == sessions.Keys
      && (forall k :: k in sessions ==> Placed(k))
      && Unshared()
      && Indexes(byRequest, cfg.sidecar.operations)
    }

    constructor (cfg: Spec.Config)
      ensures Valid() && this.cfg == cfg && view == map[] && Repr == {}
    {
      this.cfg := cfg;
      var index: map<string, OperationEntry> := map[];
      var operations := cfg.sidecar.operations;
      for i := 0 to |operations|
        invariant Indexes(index, operations[..i])
      {
        IndexSnoc(index, operations[..i], operations[i]);
        assert operations[..i + 1] == operations[..i] + [operations[i]];
        index := index[Spec.RequestKey(operations[i].httpMethod, operations[i].path) := operations[i]];
      }
      assert operations[..|operations|] == operations;
      byRequest := index;
      sessions := map[];
      view := map[];
      Repr := {};
    }

    /** Build the instance of a scenario and session. */
    method BuildInstance(key: Spec.SessionKey, entry: ScenarioEntry)
      requires Valid() && Spec.FindScenario(cfg.sidecar.scenarios, key.scenario) == Some(entry)
      requires key !in sessions
      modifies this
      ensures Valid() && key in sessions && fresh(sessions[key]) && fresh(sessions[key].store)
      ensures fresh(Repr - old(Repr))
      ensures view == old(view)[key := Spec.Fresh(cfg, key.scenario)]
    {
      var inst := new Instance(key.scenario, entry.initial, entry.seed, cfg.maxStoreEntries);
      Adopt(key, inst, Spec.Fresh(cfg, key.scenario));
      assert Repr - old(Repr) <= {inst, inst.store};
    }

    /** Put an instance nobody shares under a key. */
    method Adopt(key: Spec.SessionKey, inst: Instance, ghost value: Spec.Instance)
      requires Valid() && key !in sessions && inst.Valid() && inst.Value() == value
      requires inst !in Repr && inst.store !in Repr
      requires
        var entry := Spec.FindScenario(cfg.sidecar.scenarios, key.scenario);
        entry.Some? && inst.initial == entry.value.initial && inst.seed == entry.value.seed
      requires inst.store.limit == cfg.maxStoreEntries
      modifies this
      ensures Valid() && Repr == old(Repr) + {inst, inst.store}
      ensures sessions == old(sessions)[key := inst] && view == old(view)[key := value]
    {
      forall k | k in sessions ensures sessions[k] != inst && sessions[k].store != inst.store {
        assert Placed(k);
      }
      sessions := sessions[key := inst];
      Repr := Repr + {inst, inst.store};
      view := view[key := value];
      StillValidWith(key);
    }

    /** Adding one instance, and its view, leaves the others in place. */
    twostate lemma StillValidWith(key: Spec.SessionKey)
      requires old(Valid()) && key in sessions && Placed(key) && this !in Repr && old(Repr) <= Repr
      requires sessions == old(sessions)[key := sessions[key]] && view == old(view)[key := view[key]]
      requires forall k :: k in old(sessions) ==>
                 sessions[key] != old(sessions)[k] && sessions[key].store != old(sessions)[k].store
      requires forall k :: k in old(sessions) ==> unchanged(old(sessions)[k]) && unchanged(old(sessions)[k].store)
      requires key !in old(sessions)
      ensures Valid()
    {
      forall k | k in sessions && k != key ensures Placed(k) {
        assert old(Placed(k));
      }
    }

    method ServeLive(key: Spec.SessionKey, entry: ScenarioEntry, op: OperationEntry, req: Spec.Request)
      returns (outcome: Spec.Resolution)
      requires Valid() && key in sessions
      modifies this, Repr
      ensures Valid() && sessions == old(sessions) && Repr == old(Repr)
      ensures
        var (after, r) := Spec.ServeInstance(entry, op, key.session, cfg.maxStoreEntries, old(view[key]), req);
        outcome == r && view == old(view)[key := after]
    {
      assert Placed(key);
      outcome := ServeOn(sessions[key], entry, op, key.session, req);
      view := view[key := sessions[key].Value()];
      StillValid(key);
    }

    /** Changing one instance, and the view of it, leaves the others in place. */
    twostate lemma StillValid(key: Spec.SessionKey)
      requires old(Valid()) && key in sessions && sessions[key].Valid()
      requires sessions == old(sessions) && Repr == old(Repr)
      requires view == old(view)[key := sessions[key].Value()]
      requires forall k :: k in sessions && k != key ==> unchanged(sessions[k]) && unchanged(sessions[k].store)
      ensures Valid()
    {
      assert old(Placed(key));
      forall k | k in sessions && k != key ensures Placed(k) {
        assert old(Placed(k));
      }
    }

    /** Answer a request: exactly as the specification does from the abstract sessions. */
    method ResolveWith(req: Spec.Request) returns (outcome: Spec.Resolution)
      requires Valid()
      modifies this, Repr
      ensures Valid() && fresh(Repr - old(Repr))
      ensures (view, outcome) == Spec.Serve(cfg, old(view), req)
    {
      if req.preferCode {
        return Spec.Ungoverned;
      }
      var scenarios := cfg.sidecar.scenarios;
      var name := if req.scenario.Some? then req.scenario.value
                  else if scenarios != [] then scenarios[0].name else "";
      var found := Spec.FindScenario(scenarios, name);
      if found.None? {
        return if req.scenario.Some?
               then Spec.Failed(Spec.UnknownScenario(req.scenario.value, Spec.Names(scenarios)))
               else Spec.Ungoverned;
      }
      var signature := Spec.RequestKey(req.httpMethod, req.path);
      if signature !in byRequest {
        return Spec.Ungoverned;
      }
      var session := if req.session.Some? then req.session.value else Spec.DEFAULT_SESSION;
      outcome := ResolveOn(Spec.SessionKey(found.value.name, session), found.value, byRequest[signature], req);
    }

    /** Find the instance, or build it if the session cap allows, and serve on it. */
    method ResolveOn(key: Spec.SessionKey, entry: ScenarioEntry, op: OperationEntry, req: Spec.Request)
      returns (outcome: Spec.Resolution)
      requires Valid() && Spec.RouteOf(cfg, req) == Spec.Governed(key, entry, op)
      modifies this, Repr
      ensures Valid() && fresh(Repr - old(Repr))
      ensures (view, outcome) == Spec.Serve(cfg, old(view), req)
    {
      SameSize(view, sessions);
      if key !in sessions {
        if |sessions| >= cfg.maxSessions {
          return Spec.Failed(Spec.SessionCapExceeded(cfg.maxSessions));
        }
        outcome := ResolveNew(key, entry, op, req);
        return;
      }
      ServeUnfold(cfg, view, req, view[key]);
      outcome := ServeLive(key, entry, op, req);
    }

    method ResolveNew(key: Spec.SessionKey, entry: ScenarioEntry, op: OperationEntry, req: Spec.Request)
      returns (outcome: Spec.Resolution)
      requires Valid() && Spec.RouteOf(cfg, req) == Spec.Governed(key, entry, op)
      requires key !in sessions && |sessions| < cfg.maxSessions
      modifies this, Repr
      ensures Valid() && fresh(Repr - old(Repr))
      ensures (view, outcome) == Spec.Serve(cfg, old(view), req)
    {
      ghost var inst := Spec.Fresh(cfg, key.scenario);
      SameSize(view, sessions);
      ServeUnfold(cfg, view, req, inst);
      BuildInstance(key, entry);
      outcome := ServeLive(key, entry, op, req);
      UpdateTwice(old(view), key, inst, view[key]);
    }

    method Release(key: Spec.SessionKey) returns (found: bool)
      requires Valid()
      modifies this
      ensures Valid() && Repr == old(Repr)
      ensures (view, Spec.Released(found)) == Spec.Step(cfg, old(view), Spec.Release(key))
    {
      found := key in sessions;
      sessions := sessions - {key};
      view := view - {key};
      forall k | k in sessions ensures Placed(k) {
        assert old(Placed(k));
      }
    }

    /** Reset every live instance, in whatever order the map yields them. */
    method ResetAll() returns (count: nat)
      requires Valid()
      modifies this, Repr
      ensures Valid() && sessions == old(sessions) && Repr == old(Repr)
      ensures (view, Spec.ResetCount(count)) == Spec.Step(cfg, old(view), Spec.ResetAll)
    {
      SameSize(view, sessions);
      count := ResetEach();
      MapReset(cfg, old(view), view);
    }

    method ResetEach() returns (count: nat)
      requires Valid()
      modifies this, Repr
      ensures Valid() && sessions == old(sessions) && Repr == old(Repr) && count == |sessions|
      ensures forall k :: k in view ==> view[k] == Spec.Fresh(cfg, k.scenario)
    {
      count := 0;
      var keys := sessions.Keys;
      var left := keys;
      while left != {}
        invariant left <= keys && count == |keys| - |left|
        invariant Valid() && sessions == old(sessions) && Repr == old(Repr)
        invariant Renewed(cfg, view, left)
        decreases left
      {
        left := ResetNext(left);
        count := count + 1;
      }
      assert |keys| == |sessions|;
    }

    /** Reset some instance of those left, and say which are then left. */
    method ResetNext(left: set<Spec.SessionKey>) returns (rest: set<Spec.SessionKey>)
      requires Valid() && left <= sessions.Keys && left != {} && Renewed(cfg, view, left)
      modifies this, Repr
      ensures Valid() && sessions == old(sessions) && Repr == old(Repr)
      ensures rest < left && |rest| == |left| - 1 && Renewed(cfg, view, rest)
    {
      var key :| key in left;
      RenewedStep(cfg, view, left, key);
      rest := left - {key};
      ResetOne(key);
    }

    method ResetOne(key: Spec.SessionKey)
      requires Valid() && key in sessions
      modifies this, Repr
      ensures Valid() && sessions == old(sessions) && Repr == old(Repr)
      ensures view == old(view)[key := Spec.Fresh(cfg, key.scenario)]
    {
      assert Placed(key);
      sessions[key].Reset();
      view := view[key := Spec.Fresh(cfg, key.scenario)];
      StillValid(key);
    }

    method Execute(cmd: Spec.Command) returns (reply: Spec.Reply)
      requires Valid()
      modifies this, Repr
      ensures Valid() && fresh(Repr - old(Repr))
      ensures (view, reply) == Spec.Step(cfg, old(view), cmd)
    {
      match cmd
      case Ask(req) =>
        var outcome := ResolveWith(req);
        reply := Spec.Resolved(outcome);
      case Release(key) =>
        var found := Release(key);
        reply := Spec.Released(found);
      case ResetAll =>
        var count := ResetAll();
        reply := Spec.ResetCount(count);
    }

    /** Over any sequence of commands run one at a time, the replies are the specified ones. */
    method ExecuteAll(cmds: seq<Spec.Command>) returns (replies: seq<Spec.Reply>)
      requires Valid()
      modifies this, Repr
      ensures Valid()
      ensures (view, replies) == Spec.Run(cfg, old(view), cmds)
    {
      replies := [];
      assert cmds[0..] == cmds && [] + Spec.Run(cfg, view, cmds).1 == Spec.Run(cfg, view, cmds).1;
      for i := 0 to |cmds|
        invariant Valid() && fresh(Repr - old(Repr))
        invariant
          var (final, rest) := Spec.Run(cfg, view, cmds[i..]);
          (final, replies + rest) == Spec.Run(cfg, old(view), cmds)
      {
        var reply := Execute(cmds[i]);
        assert cmds[i..][0] == cmds[i] && cmds[i..][1..] == cmds[i + 1..];
        ghost var rest := Spec.Run(cfg, view, cmds[i + 1..]).1;
        assert replies + ([reply] + rest) == (replies + [reply]) + rest;
        replies := replies + [reply];
      }
      assert replies + [] == replies;
    }
  }

  /** Every instance outside `left` is like a new one. */
  ghost predicate Renewed(cfg: Spec.Config, view: Spec.Sessions, left: set<Spec.SessionKey>) {
    forall k :: k in view && k !in left ==> view[k] == Spec.Fresh(cfg, k.scenario)
  }

  lemma {:induction false} RenewedStep(cfg: Spec.Config, view: Spec.Sessions, left: set<Spec.SessionKey>, key: Spec.SessionKey)
    requires Renewed(cfg, view, left) && key in left
    ensures Renewed(cfg, view[key := Spec.Fresh(cfg, key.scenario)], left - {key})
    ensures |left - {key}| == |left| - 1 && left - {key} < left
  {
  }

  lemma {:induction false} SameSize(values: Spec.Sessions, sessions: map<Spec.SessionKey, Instance>)
    requires values.Keys == sessions.Keys
    ensures |values| == |sessions|
  {
    assert |values.Keys| == |sessions.Keys|;
  }

  lemma {:induction false} UpdateTwice(m: Spec.Sessions, key: Spec.SessionKey, a: Spec.Instance, b: Spec.Instance)
    ensures m[key := a][key := b] == m[key := b]
  {
  }

  lemma {:induction false} MapReset(cfg: Spec.Config, before: Spec.Sessions, after: Spec.Sessions)
    requires before.Keys == after.Keys
    requires forall k :: k in after ==> after[k] == Spec.Fresh(cfg, k.scenario)
    ensures (after, Spec.ResetCount(|before|)) == Spec.Step(cfg, before, Spec.ResetAll)
  {
    assert after == Spec.Reset(cfg, before);
  }

  lemma {:induction false} ServeUnfold(cfg: Spec.Config, sessions: Spec.Sessions, req: Spec.Request, inst: Spec.Instance)
    requires Spec.RouteOf(cfg, req).Governed?
    requires
      var key := Spec.RouteOf(cfg, req).key;
      if key in sessions then inst == sessions[key]
      else inst == Spec.Fresh(cfg, key.scenario) && |sessions| < cfg.maxSessions
    ensures
      var Governed(key, entry, op) := Spec.RouteOf(cfg, req);
      var (after, r) := Spec.ServeInstance(entry, op, key.session, cfg.maxStoreEntries, inst, req);
      Spec.Serve(cfg, sessions, req) == (sessions[key := after], r)
  {
  }

  ghost predicate Indexes(index: map<string, OperationEntry>, operations: seq<OperationEntry>) {
    forall key :: Spec.FindOperation(operations, key) == if key in index then Some(index[key]) else None
  }

  lemma {:induction false} IndexSnoc(index: map<string, OperationEntry>, operations: seq<OperationEntry>, op: OperationEntry)
    requires Indexes(index, operations)
    ensures Indexes(index[Spec.RequestKey(op.httpMethod, op.path) := op], operations + [op])
  {
    var longer := operations + [op];
    assert longer[..|longer| - 1] == operations;
  }
}
