/** Laws of scenario execution, over every sequence of commands. */
module RuntimeLaws {
  import opened Basics
  import opened JsonModel
  import opened ScenarioMachine
  import opened SidecarModel
  import opened StoreTypes
  import opened RuntimeSpec
  import Store = StoreSpec

  // ---------------------------------------------------------------------------
  // Both caps hold, and every state is one its scenario can reach
  // ---------------------------------------------------------------------------

  predicate StoreBounded(rs: seq<Store.Resource>, limit: nat) {
    Store.Distinct(rs) && |rs| <= limit
  }

  ghost predicate Sound(cfg: Config, key: SessionKey, inst: Instance) {
    && StoreBounded(inst.resources, cfg.maxStoreEntries)
    && FindScenario(cfg.sidecar.scenarios, key.scenario).Some?
    && FindScenario(cfg.sidecar.scenarios, key.scenario).value.Machine().Reachable(inst.state)
  }

  ghost predicate Invariant(cfg: Config, sessions: Sessions) {
    && |sessions| <= cfg.maxSessions
    && forall k :: k in sessions ==> Sound(cfg, k, sessions[k])
  }

  lemma {:induction false} CreateBounded(rs: seq<Store.Resource>, limit: nat, key: StoreKey, value: Json)
    requires StoreBounded(rs, limit)
    ensures StoreBounded(Store.Create(rs, limit, key, value).0, limit)
  {
    Store.DistinctKept(rs, limit, key, value);
  }

  lemma {:induction false} ApplyBounded(rs: seq<Store.Resource>, limit: nat, use: StoreUse, req: Request)
    requires StoreBounded(rs, limit)
    ensures StoreBounded(ApplyStore(rs, limit, use, req).0, limit)
  {
    if !use.action.List? && Addressed(use, req).Some? {
      var key := Addressed(use, req).value;
      Store.WithoutLive(rs, key);
      match use.action
      case Create => CreateBounded(rs, limit, key, CreatedValue(use, req, key.id));
      case Update => Store.DistinctKept(rs, limit, key, match req.body case Some(v) => v case None => Null);
      case _ => Store.DistinctKept(rs, limit, key, Null);
    }
  }

  lemma {:induction false} SeedItemsBounded(rs: seq<Store.Resource>, limit: nat, namespace: string, items: seq<Json>, from: nat)
    requires StoreBounded(rs, limit)
    ensures StoreBounded(SeedItems(rs, limit, namespace, items, from), limit)
    decreases |items| - from
  {
    if from < |items| {
      var key := StoreKey(namespace, SeedId(items[from], from));
      CreateBounded(rs, limit, key, items[from]);
      SeedItemsBounded(Store.Create(rs, limit, key, items[from]).0, limit, namespace, items, from + 1);
    }
  }

  lemma {:induction false} SeedBounded(rs: seq<Store.Resource>, limit: nat, seeds: seq<SeedEntry>)
    requires StoreBounded(rs, limit)
    ensures StoreBounded(Seed(rs, limit, seeds), limit)
    decreases |seeds|
  {
    if seeds != [] {
      SeedItemsBounded(rs, limit, seeds[0].resource, seeds[0].items, 0);
      SeedBounded(SeedItems(rs, limit, seeds[0].resource, seeds[0].items, 0), limit, seeds[1..]);
    }
  }

  lemma {:induction false} FreshSound(cfg: Config, key: SessionKey)
    requires FindScenario(cfg.sidecar.scenarios, key.scenario).Some?
    ensures Sound(cfg, key, Fresh(cfg, key.scenario))
  {
    var entry := FindScenario(cfg.sidecar.scenarios, key.scenario).value;
    SeedBounded([], cfg.maxStoreEntries, entry.seed);
    entry.Machine().InitialIsReachable();
  }

  lemma {:induction false} ServeSound(cfg: Config, key: SessionKey, entry: ScenarioEntry, op: OperationEntry, inst: Instance, req: Request)
    requires FindScenario(cfg.sidecar.scenarios, key.scenario) == Some(entry) && Sound(cfg, key, inst)
    ensures Sound(cfg, key, ServeInstance(entry, op, key.session, cfg.maxStoreEntries, inst, req).0)
  {
    var m := entry.Machine();
    if op.store.Some? {
      ApplyBounded(inst.resources, cfg.maxStoreEntries, op.store.value, req);
    }
    if m.NextState(inst.state, op.name).Some? {
      m.ReachableStep(inst.state, op.name);
    }
  }

  lemma {:induction false} PutInvariant(cfg: Config, sessions: Sessions, key: SessionKey, inst: Instance)
    requires Invariant(cfg, sessions) && Sound(cfg, key, inst)
    requires key in sessions || |sessions| < cfg.maxSessions
    ensures Invariant(cfg, sessions[key := inst])
  {
    assert sessions[key := inst].Keys == sessions.Keys + {key};
    var after := sessions[key := inst];
    forall k | k in after ensures Sound(cfg, k, after[k]) {
    }
  }

  lemma {:induction false} AskInvariant(cfg: Config, sessions: Sessions, req: Request)
    requires Invariant(cfg, sessions)
    ensures Invariant(cfg, Serve(cfg, sessions, req).0)
  {
    var route := RouteOf(cfg, req);
    if route.Governed? && (route.key in sessions || |sessions| < cfg.maxSessions) {
      var Governed(key, entry, op) := route;
      FreshSound(cfg, key);
      var inst := if key in sessions then sessions[key] else Fresh(cfg, key.scenario);
      ServeSound(cfg, key, entry, op, inst, req);
      PutInvariant(cfg, sessions, key, ServeInstance(entry, op, key.session, cfg.maxStoreEntries, inst, req).0);
    }
  }

  lemma {:induction false} ResetInvariant(cfg: Config, sessions: Sessions)
    requires Invariant(cfg, sessions)
    ensures Invariant(cfg, Reset(cfg, sessions)) && |Reset(cfg, sessions)| == |sessions|
  {
    assert Reset(cfg, sessions).Keys == sessions.Keys;
    forall k | k in sessions ensures Sound(cfg, k, Fresh(cfg, k.scenario)) {
      FreshSound(cfg, k);
    }
  }

  lemma {:induction false} ReleaseSize(sessions: Sessions, key: SessionKey)
    ensures |sessions - {key}| == |sessions| - if key in sessions then 1 else 0
  {
    assert (sessions - {key}).Keys == sessions.Keys - {key};
  }

  lemma {:induction false} StepInvariant(cfg: Config, sessions: Sessions, cmd: Command)
    requires Invariant(cfg, sessions)
    ensures Invariant(cfg, Step(cfg, sessions, cmd).0)
  {
    match cmd
    case Ask(req) => AskInvariant(cfg, sessions, req);
    case Release(key) => ReleaseSize(sessions, key);
    case ResetAll => ResetInvariant(cfg, sessions);
  }

  /** After every command of every run: at most `maxSessions` instances, at most
      `maxStoreEntries` resources in each under distinct keys, and a current state its
      scenario can reach. */
  lemma {:induction false} RunInvariant(cfg: Config, sessions: Sessions, cmds: seq<Command>)
    requires Invariant(cfg, sessions)
    ensures Invariant(cfg, Run(cfg, sessions, cmds).0)
    decreases |cmds|
  {
    if cmds != [] {
      StepInvariant(cfg, sessions, cmds[0]);
      RunInvariant(cfg, Step(cfg, sessions, cmds[0]).0, cmds[1..]);
    }
  }

  // ---------------------------------------------------------------------------
  // Isolation
  // ---------------------------------------------------------------------------

  /** A request changes no instance but its own, and never ends one. */
  lemma {:induction false} RequestIsIsolated(cfg: Config, sessions: Sessions, req: Request, other: SessionKey)
    requires RouteOf(cfg, req).Governed? ==> RouteOf(cfg, req).key != other
    ensures
      var after := Serve(cfg, sessions, req).0;
      && sessions.Keys <= after.Keys
      && (other in after <==> other in sessions)
      && (other in sessions ==> after[other] == sessions[other])
  {
  }

  /** A command may touch this instance. */
  predicate Concerns(cfg: Config, cmd: Command, key: SessionKey) {
    match cmd
    case Ask(req) => RouteOf(cfg, req).Governed? && RouteOf(cfg, req).key == key
    case Release(k) => k == key
    case ResetAll => true
  }

  /** Whatever other sessions do, an instance no command concerns is as it was. */
  lemma {:induction false} RunIsIsolated(cfg: Config, sessions: Sessions, cmds: seq<Command>, key: SessionKey)
    requires key in sessions
    requires forall i :: 0 <= i < |cmds| ==> !Concerns(cfg, cmds[i], key)
    ensures
      var after := Run(cfg, sessions, cmds).0;
      key in after && after[key] == sessions[key]
    decreases |cmds|
  {
    if cmds != [] {
      var next := Step(cfg, sessions, cmds[0]).0;
      if cmds[0].Ask? {
        RequestIsIsolated(cfg, sessions, cmds[0].req, key);
      }
      assert key in next && next[key] == sessions[key];
      RunIsIsolated(cfg, next, cmds[1..], key);
    }
  }

  /** A request that is refused by the machine, or that failed validation, changes no
      live instance. */
  lemma {:induction false} RejectedRequestChangesNothing(cfg: Config, sessions: Sessions, req: Request, key: SessionKey)
    requires key in sessions
    requires
      var r := Serve(cfg, sessions, req).1;
      !req.validated || (r.Failed? && r.failure.IllegalOperation?)
    ensures
      var after := Serve(cfg, sessions, req).0;
      key in after && after[key] == sessions[key]
  {
    var route := RouteOf(cfg, req);
    if route.Governed? && route.key == key && req.validated && route.entry.Machine().Allows(sessions[key].state, route.op.name) {
      if route.op.store.Some? {
        StoreNeverReportsIllegal(sessions[key].resources, cfg.maxStoreEntries, route.op.store.value, req);
      }
    }
  }

  /** A request about no session or a live one that failed validation, or is answered as
      illegal in the current state. */
  predicate Rejected(cfg: Config, sessions: Sessions, cmd: Command) {
    && cmd.Ask?
    && (RouteOf(cfg, cmd.req).Governed? ==> RouteOf(cfg, cmd.req).key in sessions)
    && var r := Serve(cfg, sessions, cmd.req).1;
       !cmd.req.validated || (r.Failed? && r.failure.IllegalOperation?)
  }

  lemma {:induction false} RejectedStepChangesNothing(cfg: Config, sessions: Sessions, cmd: Command)
    requires Rejected(cfg, sessions, cmd)
    ensures Step(cfg, sessions, cmd).0 == sessions
  {
    var route := RouteOf(cfg, cmd.req);
    if route.Governed? {
      var after := Serve(cfg, sessions, cmd.req).0;
      RejectedRequestChangesNothing(cfg, sessions, cmd.req, route.key);
      assert after == sessions[route.key := after[route.key]];
    }
  }

  /** The commands of a run that are not rejected where they stand, with their replies. */
  function Admitted(cfg: Config, sessions: Sessions, cmds: seq<Command>): (seq<Command>, seq<Reply>)
    decreases |cmds|
  {
    if cmds == [] then ([], [])
    else
      var (next, reply) := Step(cfg, sessions, cmds[0]);
      var (rest, replies) := Admitted(cfg, next, cmds[1..]);
      if Rejected(cfg, sessions, cmds[0]) then (rest, replies) else ([cmds[0]] + rest, [reply] + replies)
  }

  /** Leaving the rejected requests out of a run changes neither the final sessions nor any
      other reply. */
  lemma {:induction false} RejectionsLeaveNoTrace(cfg: Config, sessions: Sessions, cmds: seq<Command>)
    ensures
      var (kept, replies) := Admitted(cfg, sessions, cmds);
      Run(cfg, sessions, kept) == (Run(cfg, sessions, cmds).0, replies)
    decreases |cmds|
  {
    if cmds != [] {
      var next := Step(cfg, sessions, cmds[0]).0;
      RejectionsLeaveNoTrace(cfg, next, cmds[1..]);
      var rest := Admitted(cfg, next, cmds[1..]).0;
      if Rejected(cfg, sessions, cmds[0]) {
        RejectedStepChangesNothing(cfg, sessions, cmds[0]);
      } else {
        assert ([cmds[0]] + rest)[1..] == rest;
      }
    }
  }

  lemma {:induction false} StoreNeverReportsIllegal(rs: seq<Store.Resource>, limit: nat, use: StoreUse, req: Request)
    ensures
      var r := ApplyStore(rs, limit, use, req).1;
      r.Err? ==> !r.error.IllegalOperation?
  {
  }

  // ---------------------------------------------------------------------------
  // Nothing is evicted
  // ---------------------------------------------------------------------------

  /** The request asks for this resource to be replaced or removed. */
  predicate Overwrites(cfg: Config, req: Request, session: SessionKey, key: StoreKey) {
    var route := RouteOf(cfg, req);
    && route.Governed? && route.key == session && route.op.store.Some?
    && (route.op.store.value.action.Update? || route.op.store.value.action.Delete?)
    && Addressed(route.op.store.value, req) == Some(key)
  }

  lemma {:induction false} ApplyKeeps(rs: seq<Store.Resource>, limit: nat, use: StoreUse, req: Request, key: StoreKey)
    requires Store.Lookup(rs, key).Some?
    requires use.action.Update? || use.action.Delete? ==> Addressed(use, req) != Some(key)
    ensures Store.Lookup(ApplyStore(rs, limit, use, req).0, key) == Store.Lookup(rs, key)
  {
    if !use.action.List? && Addressed(use, req).Some? {
      var target := Addressed(use, req).value;
      match use.action
      case Create => Store.LookupAppend(rs, Store.Resource(target, CreatedValue(use, req, target.id)), key);
      case Update => Store.LookupReplace(rs, target, match req.body case Some(v) => v case None => Null, key);
      case Delete => Store.LookupWithout(rs, target, key);
      case _ =>
    }
  }

  /** A stored resource keeps its value until a request on its own instance updates or
      deletes it, its instance is released, or everything is reset. */
  predicate Spares(cfg: Config, cmd: Command, session: SessionKey, key: StoreKey) {
    match cmd
    case Ask(req) => !Overwrites(cfg, req, session, key)
    case Release(k) => k != session
    case ResetAll => false
  }

  ghost predicate Holds(sessions: Sessions, session: SessionKey, key: StoreKey, value: Json) {
    session in sessions && Store.Lookup(sessions[session].resources, key) == Some(value)
  }

  lemma {:induction false} StepKeeps(cfg: Config, sessions: Sessions, cmd: Command, session: SessionKey, key: StoreKey, value: Json)
    requires Holds(sessions, session, key, value) && Spares(cfg, cmd, session, key)
    ensures Holds(Step(cfg, sessions, cmd).0, session, key, value)
  {
    if cmd.Ask? {
      var route := RouteOf(cfg, cmd.req);
      if route.Governed? && route.key == session && route.op.store.Some? {
        ApplyKeeps(sessions[session].resources, cfg.maxStoreEntries, route.op.store.value, cmd.req, key);
      }
    }
  }

  lemma {:induction false} RunKeeps(cfg: Config, sessions: Sessions, cmds: seq<Command>, session: SessionKey, key: StoreKey, value: Json)
    requires Holds(sessions, session, key, value)
    requires forall i :: 0 <= i < |cmds| ==> Spares(cfg, cmds[i], session, key)
    ensures Holds(Run(cfg, sessions, cmds).0, session, key, value)
    decreases |cmds|
  {
    if cmds != [] {
      StepKeeps(cfg, sessions, cmds[0], session, key, value);
      RunKeeps(cfg, Step(cfg, sessions, cmds[0]).0, cmds[1..], session, key, value);
    }
  }

  // ---------------------------------------------------------------------------
  // Reset
  // ---------------------------------------------------------------------------

  /** A request that reaches this instance or none. */
  predicate AsksOnly(cfg: Config, cmd: Command, key: SessionKey) {
    cmd.Ask? && (RouteOf(cfg, cmd.req).Governed? ==> RouteOf(cfg, cmd.req).key == key)
  }

  /** Two runtimes that differ only in whether a just-reset instance is already live. */
  ghost predicate SameUpToFresh(cfg: Config, a: Sessions, b: Sessions, key: SessionKey) {
    a == b || (key in a && b == a - {key} && a[key] == Fresh(cfg, key.scenario) && |b| < cfg.maxSessions)
  }

  lemma {:induction false} SameReply(cfg: Config, a: Sessions, b: Sessions, key: SessionKey, req: Request)
    requires SameUpToFresh(cfg, a, b, key)
    requires RouteOf(cfg, req).Governed? ==> RouteOf(cfg, req).key == key
    ensures Serve(cfg, a, req).1 == Serve(cfg, b, req).1
    ensures SameUpToFresh(cfg, Serve(cfg, a, req).0, Serve(cfg, b, req).0, key)
  {
    if a != b && RouteOf(cfg, req).Governed? {
      var after := Serve(cfg, a, req).0;
      assert b[key := after[key]] == a[key := after[key]];
    }
  }

  lemma {:induction false} SameReplies(cfg: Config, a: Sessions, b: Sessions, key: SessionKey, reqs: seq<Command>)
    requires SameUpToFresh(cfg, a, b, key)
    requires forall i :: 0 <= i < |reqs| ==> AsksOnly(cfg, reqs[i], key)
    ensures Run(cfg, a, reqs).1 == Run(cfg, b, reqs).1
    decreases |reqs|
  {
    if reqs != [] {
      SameReply(cfg, a, b, key, reqs[0].req);
      SameReplies(cfg, Step(cfg, a, reqs[0]).0, Step(cfg, b, reqs[0]).0, key, reqs[1..]);
    }
  }

  lemma {:induction false} ResetUpToFresh(cfg: Config, before: Sessions, reset: Sessions, key: SessionKey)
    requires Invariant(cfg, before) && key in before && reset == Reset(cfg, before)
    ensures SameUpToFresh(cfg, reset, reset - {key}, key)
  {
    ResetInvariant(cfg, before);
    assert reset[key] == Fresh(cfg, key.scenario);
    WithoutOne(cfg, reset, key);
  }

  lemma {:induction false} WithoutOne(cfg: Config, sessions: Sessions, key: SessionKey)
    requires key in sessions && sessions[key] == Fresh(cfg, key.scenario) && |sessions| <= cfg.maxSessions
    ensures SameUpToFresh(cfg, sessions, sessions - {key}, key)
  {
    ReleaseSize(sessions, key);
  }

  /** Whatever happened before a reset, any later requests to a live instance are answered
      exactly as if that instance had never existed and were built anew. */
  lemma {:induction false} ResetIsObservablyFresh(
    cfg: Config, past: seq<Command>, key: SessionKey, reqs: seq<Command>)
    requires key in Run(cfg, map[], past).0
    requires forall i :: 0 <= i < |reqs| ==> AsksOnly(cfg, reqs[i], key)
    ensures
      var reset := Step(cfg, Run(cfg, map[], past).0, ResetAll).0;
      Run(cfg, reset, reqs).1 == Run(cfg, reset - {key}, reqs).1
  {
    var before := Run(cfg, map[], past).0;
    RunInvariant(cfg, map[], past);
    var reset := Step(cfg, before, ResetAll).0;
    ResetUpToFresh(cfg, before, reset, key);
    SameReplies(cfg, reset, reset - {key}, key, reqs);
  }

  // ---------------------------------------------------------------------------
  // Create, then get
  // ---------------------------------------------------------------------------

  /** The identifier just written is the one the pointer reads. */
  lemma {:induction false} AlignReadsBack(v: Json, segments: seq<string>, identifier: string)
    requires segments != []
    ensures Follow(Align(v, segments, identifier), segments) == Some(Str(identifier))
    decreases |segments|
  {
    var members := MembersOf(v);
    if |segments| == 1 {
      FindAfterPut(members, segments[0], Str(identifier), segments[0]);
      assert Follow(Str(identifier), segments[1..]) == Some(Str(identifier));
    } else {
      var child := match Find(members, segments[0]) case Some(c) => c case None => Obj([]);
      AlignReadsBack(child, segments[1..], identifier);
      FindAfterPut(members, segments[0], Align(child, segments[1..], identifier), segments[0]);
    }
  }

  /** A path that leaves the aligned one at some segment reads what it read before. */
  lemma {:induction false} AlignKeepsTheRest(v: Json, segments: seq<string>, identifier: string, probe: seq<string>, d: nat)
    requires d < |segments| && d < |probe| && segments[..d] == probe[..d] && segments[d] != probe[d]
    ensures Follow(Align(v, segments, identifier), probe) == Follow(v, probe)
    decreases |segments|
  {
    var members := MembersOf(v);
    var child := match Find(members, segments[0]) case Some(c) => c case None => Obj([]);
    var written := if |segments| == 1 then Str(identifier) else Align(child, segments[1..], identifier);
    FindAfterPut(members, segments[0], written, probe[0]);
    if d > 0 {
      assert segments[0] == segments[..d][0] == probe[..d][0] == probe[0];
      assert segments[1..][..d - 1] == segments[..d][1..] == probe[..d][1..] == probe[1..][..d - 1];
      AlignKeepsTheRest(child, segments[1..], identifier, probe[1..], d - 1);
      if Find(members, segments[0]).None? {
        assert Follow(Obj([]), probe[1..]) == None;
      }
    }
  }

  /** The path parts from the given one at some segment. */
  predicate Leaves(probe: seq<string>, segments: seq<string>) {
    exists d :: 0 <= d < |segments| && d < |probe| && segments[..d] == probe[..d] && segments[d] != probe[d]
  }

  /** Everything off the pointer's path reads in `a` as in `b`. */
  ghost predicate AgreeOff(a: Json, b: Json, pointer: string) {
    forall probe :: Leaves(probe, PointerSegments(pointer)) ==> Follow(a, probe) == Follow(b, probe)
  }

  /** The body a client is handed, if any. */
  function Served(r: Resolution): Option<Json> {
    match r
    case Body(value) => Some(value)
    case Forced(_, body) => body
    case _ => None
  }

  /** The request reaches an operation with this store use, legal in the current state,
      and no override replaces the body. */
  ghost predicate Effective(cfg: Config, sessions: Sessions, req: Request, session: SessionKey, use: StoreUse) {
    var route := RouteOf(cfg, req);
    && route.Governed? && route.key == session && route.op.store == Some(use)
    && (session in sessions || |sessions| < cfg.maxSessions)
    && req.validated
    && var inst := if session in sessions then sessions[session] else Fresh(cfg, session.scenario);
       && route.entry.Machine().Allows(inst.state, route.op.name)
       && var chosen := ChosenOverride(route.entry.Machine(), inst.state, route.op);
          chosen.Some? ==> chosen.value.body.None?
  }

  /** A create that files the generated reply hands out, and stores, a document whose own
      identifier is the key it is filed under. */
  lemma {:induction false} CreateFilesItsReply(cfg: Config, sessions: Sessions, req: Request, session: SessionKey, use: StoreUse)
    requires Effective(cfg, sessions, req, session, use)
    requires use.action.Create? && use.keyFrom.Some? && use.keyFrom.value.pointer != ""
    requires req.createValue.GeneratedReply?
    requires !Serve(cfg, sessions, req).1.Failed?
    ensures
      var (after, r) := Serve(cfg, sessions, req);
      && Addressed(use, req).Some?
      && var key := Addressed(use, req).value;
         && Served(r).Some?
         && PointerValue(Served(r).value, use.keyFrom.value.pointer) == Some(key.id)
         && AgreeOff(Served(r).value, req.generated, use.keyFrom.value.pointer)
         && Holds(after, session, key, Served(r).value)
  {
    var route := RouteOf(cfg, req);
    var inst := if session in sessions then sessions[session] else Fresh(cfg, session.scenario);
    CreateOnInstance(route.entry, route.op, session.session, cfg.maxStoreEntries, inst, req, use);
  }

  lemma {:induction false} CreateOnInstance(
    entry: ScenarioEntry, op: OperationEntry, session: string, limit: nat, inst: Instance, req: Request, use: StoreUse)
    requires op.store == Some(use) && req.validated && entry.Machine().Allows(inst.state, op.name)
    requires
      var chosen := ChosenOverride(entry.Machine(), inst.state, op);
      chosen.Some? ==> chosen.value.body.None?
    requires use.action.Create? && use.keyFrom.Some? && use.keyFrom.value.pointer != ""
    requires req.createValue.GeneratedReply?
    requires !ServeInstance(entry, op, session, limit, inst, req).1.Failed?
    ensures
      var (after, r) := ServeInstance(entry, op, session, limit, inst, req);
      && Addressed(use, req).Some?
      && var key := Addressed(use, req).value;
         && Served(r).Some?
         && PointerValue(Served(r).value, use.keyFrom.value.pointer) == Some(key.id)
         && AgreeOff(Served(r).value, req.generated, use.keyFrom.value.pointer)
         && Store.Lookup(after.resources, key) == Served(r)
  {
    var key := Addressed(use, req).value;
    var value := CreatedValue(use, req, key.id);
    CreatedReadsBack(use, req, key.id);
    Store.LookupAppend(inst.resources, Store.Resource(key, value), key);
  }

  lemma {:induction false} CreatedReadsBack(use: StoreUse, req: Request, id: string)
    requires use.keyFrom.Some? && use.keyFrom.value.pointer != "" && req.createValue.GeneratedReply?
    ensures PointerValue(CreatedValue(use, req, id), use.keyFrom.value.pointer) == Some(id)
    ensures AgreeOff(CreatedValue(use, req, id), req.generated, use.keyFrom.value.pointer)
  {
    var segments := PointerSegments(use.keyFrom.value.pointer);
    AlignReadsBack(req.generated, segments, id);
    forall probe | Leaves(probe, segments)
      ensures Follow(CreatedValue(use, req, id), probe) == Follow(req.generated, probe)
    {
      var d :| 0 <= d < |segments| && d < |probe| && segments[..d] == probe[..d] && segments[d] != probe[d];
      AlignKeepsTheRest(req.generated, segments, id, probe, d);
    }
  }

  lemma {:induction false} ReadServesHeld(cfg: Config, sessions: Sessions, req: Request, session: SessionKey, use: StoreUse, key: StoreKey, value: Json)
    requires Holds(sessions, session, key, value) && Effective(cfg, sessions, req, session, use)
    requires use.action.Read? && Addressed(use, req) == Some(key)
    ensures Served(Serve(cfg, sessions, req).1) == Some(value)
  {
  }

  /** gRPC create, then get: whatever else is asked in between, short of replacing or
      removing it, a read naming the identifier the client was handed returns exactly the
      document it was handed. */
  lemma {:induction false} CreateThenGet(
    cfg: Config, sessions: Sessions, session: SessionKey,
    create: Request, createUse: StoreUse, between: seq<Command>, read: Request, readUse: StoreUse)
    requires Effective(cfg, sessions, create, session, createUse)
    requires createUse.action.Create? && createUse.keyFrom.Some? && createUse.keyFrom.value.pointer != ""
    requires create.createValue.GeneratedReply? && !Serve(cfg, sessions, create).1.Failed?
    requires Addressed(createUse, create).Some?
    requires forall i :: 0 <= i < |between| ==> Spares(cfg, between[i], session, Addressed(createUse, create).value)
    requires
      var later := Run(cfg, Serve(cfg, sessions, create).0, between).0;
      Effective(cfg, later, read, session, readUse)
    requires readUse.action.Read? && Addressed(readUse, read) == Addressed(createUse, create)
    ensures
      var (after, reply) := Serve(cfg, sessions, create);
      var later := Run(cfg, after, between).0;
      && Served(reply).Some?
      && Served(Serve(cfg, later, read).1) == Served(reply)
      && PointerValue(Served(reply).value, createUse.keyFrom.value.pointer) == Some(Addressed(readUse, read).value.id)
  {
    CreateFilesItsReply(cfg, sessions, create, session, createUse);
    var (after, reply) := Serve(cfg, sessions, create);
    var key, value := Addressed(createUse, create).value, Served(reply).value;
    RunKeeps(cfg, after, between, session, key, value);
    ReadServesHeld(cfg, Run(cfg, after, between).0, read, session, readUse, key, value);
  }
}
