/** What the replies of scenario execution mean: when each failure is given, what a body
    is, where the state goes, and what a new session holds. */
module RuntimeOutcomes {
  import opened Basics
  import opened JsonModel
  import opened ScenarioMachine
  import opened SidecarModel
  import opened StoreTypes
  import opened RuntimeSpec
  import opened RuntimeLaws
  import Protocol = InstanceProtocol
  import Store = StoreSpec

  // ---------------------------------------------------------------------------
  // Failures
  // ---------------------------------------------------------------------------

  predicate Fails(r: StoreOutcome, failure: StatefulFailure) {
    r == Err(failure)
  }

  /** Each store failure is given exactly under its own condition, names the resource, and
      leaves the store as it was. */
  lemma {:induction false} StoreFailuresAreExact(rs: seq<Store.Resource>, limit: nat, use: StoreUse, req: Request)
    ensures
      var (rs', r) := ApplyStore(rs, limit, use, req);
      var target := Addressed(use, req);
      && (r.Err? ==> rs' == rs)
      && (use.action.List? ==> r.Ok?)
      && (!use.action.List? && target.None? ==> Fails(r, ResourceNotFound(Namespace(use, req))))
      && (target.Some? ==>
            var live := Store.Lookup(rs, target.value).Some?;
            var name := target.value.namespace + "/" + target.value.id;
            && (use.action.Create? ==>
                  && (Fails(r, StoreCapExceeded(limit)) <==> |rs| >= limit)
                  && (Fails(r, ResourceExists(name)) <==> |rs| < limit && live)
                  && (r.Ok? <==> |rs| < limit && !live))
            && (use.action.Read? || use.action.Update? || use.action.Delete? ==>
                  && (Fails(r, ResourceNotFound(name)) <==> !live)
                  && (r.Ok? <==> live)))
  {
    if !use.action.List? && Addressed(use, req).Some? {
      var key := Addressed(use, req).value;
      assert key.Text() == key.namespace + "/" + key.id;
    }
  }

  lemma {:induction false} StoreNeverReportsSessions(rs: seq<Store.Resource>, limit: nat, use: StoreUse, req: Request)
    ensures
      var r := ApplyStore(rs, limit, use, req).1;
      r.Err? ==> !r.error.SessionCapExceeded?
  {
  }

  // ---------------------------------------------------------------------------
  // Requests that reach the store
  // ---------------------------------------------------------------------------

  /** The request gets past the machine and validation, with this store use. */
  predicate Reaches(entry: ScenarioEntry, op: OperationEntry, inst: Instance, req: Request, use: StoreUse) {
    entry.Machine().Allows(inst.state, op.name) && req.validated && op.store == Some(use)
  }

  lemma {:induction false} StoreGivesBodies(rs: seq<Store.Resource>, limit: nat, use: StoreUse, req: Request)
    ensures
      var r := ApplyStore(rs, limit, use, req).1;
      r.Ok? ==> r.value.Body? || r.value.Empty?
  {
  }

  // ---------------------------------------------------------------------------
  // The state is decided by the operations alone
  // ---------------------------------------------------------------------------

  /** What a command means to one session's state machine. */
  datatype Event = Attempt(operation: string) | Restart

  function Events(cfg: Config, cmds: seq<Command>, key: SessionKey): seq<Event>
    decreases |cmds|
  {
    if cmds == [] then []
    else
      (match cmds[0]
       case Ask(req) =>
         var route := RouteOf(cfg, req);
         if route.Governed? && route.key == key && req.validated then [Attempt(route.op.name)] else []
       case ResetAll => [Restart]
       case Release(_) => [])
      + Events(cfg, cmds[1..], key)
  }

  /** An illegal attempt is ignored; a legal one moves if it has a target. */
  function Replay(m: Scenario, state: State, events: seq<Event>): State
    decreases |events|
  {
    if events == [] then state
    else
      match events[0]
      case Restart => Replay(m, m.initial, events[1..])
      case Attempt(operation) =>
        Replay(m, Protocol.Target(m, state, operation), events[1..])
  }

  lemma {:induction false} ReplayFirst(m: Scenario, state: State, head: seq<Event>, tail: seq<Event>)
    requires |head| <= 1
    ensures Replay(m, state, head + tail) == Replay(m, Replay(m, state, head), tail)
  {
    if head == [] {
      assert head + tail == tail;
    } else {
      assert (head + tail)[1..] == tail && head[1..] == [];
    }
  }

  lemma {:induction false} ServedState(entry: ScenarioEntry, op: OperationEntry, session: string, limit: nat, inst: Instance, req: Request)
    ensures
      var m := entry.Machine();
      ServeInstance(entry, op, session, limit, inst, req).0.state
      == Replay(m, inst.state, if req.validated then [Attempt(op.name)] else [])
  {
    assert [Attempt(op.name)][1..] == [];
  }

  lemma {:induction false} StepState(cfg: Config, sessions: Sessions, cmd: Command, key: SessionKey, entry: ScenarioEntry)
    requires key in sessions && FindScenario(cfg.sidecar.scenarios, key.scenario) == Some(entry)
    requires cmd != Release(key)
    ensures
      var after := Step(cfg, sessions, cmd).0;
      key in after && after[key].state == Replay(entry.Machine(), sessions[key].state, Events(cfg, [cmd], key))
  {
    assert [cmd][1..] == [] && Events(cfg, [], key) == [];
    match cmd
    case Ask(req) =>
      var route := RouteOf(cfg, req);
      if route.Governed? && route.key == key {
        ServedState(route.entry, route.op, key.session, cfg.maxStoreEntries, sessions[key], req);
      }
    case ResetAll => assert [Restart][1..] == [];
    case Release(_) =>
  }

  lemma {:induction false} EventsFirst(cfg: Config, cmds: seq<Command>, key: SessionKey)
    requires cmds != []
    ensures Events(cfg, cmds, key) == Events(cfg, [cmds[0]], key) + Events(cfg, cmds[1..], key)
    ensures |Events(cfg, [cmds[0]], key)| <= 1
  {
    assert [cmds[0]][1..] == [] && Events(cfg, [], key) == [];
  }

  /** Over any run, the state of a session that is not released is what its machine makes
      of the validated operations attempted on it: identifiers, bodies, store failures,
      overrides and other sessions have no say. */
  lemma {:induction false} StateIsReplayed(cfg: Config, sessions: Sessions, cmds: seq<Command>, key: SessionKey, entry: ScenarioEntry)
    requires key in sessions && FindScenario(cfg.sidecar.scenarios, key.scenario) == Some(entry)
    requires forall i :: 0 <= i < |cmds| ==> cmds[i] != Release(key)
    ensures
      var after := Run(cfg, sessions, cmds).0;
      key in after && after[key].state == Replay(entry.Machine(), sessions[key].state, Events(cfg, cmds, key))
    decreases |cmds|
  {
    if cmds != [] {
      StepState(cfg, sessions, cmds[0], key, entry);
      StateIsReplayed(cfg, Step(cfg, sessions, cmds[0]).0, cmds[1..], key, entry);
      EventsFirst(cfg, cmds, key);
      ReplayFirst(entry.Machine(), sessions[key].state, Events(cfg, [cmds[0]], key), Events(cfg, cmds[1..], key));
    }
  }

  // ---------------------------------------------------------------------------
  // Seeds
  // ---------------------------------------------------------------------------

  function ItemKey(entry: SeedEntry, i: nat): StoreKey
    requires i < |entry.items|
  {
    StoreKey(entry.resource, SeedId(entry.items[i], i))
  }

  /** No item of the entry from `from` on, and before `to`, has this key. */
  predicate Unused(entry: SeedEntry, from: nat, to: nat, key: StoreKey)
    requires to <= |entry.items|
  {
    forall j :: from <= j < to ==> ItemKey(entry, j) != key
  }

  /** Seeding one entry leaves every key its items do not name. */
  lemma {:induction false} SeedItemsLeave(rs: seq<Store.Resource>, limit: nat, entry: SeedEntry, from: nat, key: StoreKey)
    requires from <= |entry.items|
    requires Store.Lookup(rs, key).Some? || Unused(entry, from, |entry.items|, key)
    ensures Store.Lookup(SeedItems(rs, limit, entry.resource, entry.items, from), key) == Store.Lookup(rs, key)
    ensures |SeedItems(rs, limit, entry.resource, entry.items, from)| <= |rs| + |entry.items| - from
    decreases |entry.items| - from
  {
    if from < |entry.items| {
      var k := ItemKey(entry, from);
      Store.LookupAppend(rs, Store.Resource(k, entry.items[from]), key);
      SeedItemsLeave(Store.Create(rs, limit, k, entry.items[from]).0, limit, entry, from + 1, key);
    }
  }

  lemma {:induction false} SeedItemsFile(rs: seq<Store.Resource>, limit: nat, entry: SeedEntry, from: nat, i: nat)
    requires from <= i < |entry.items| && |rs| + |entry.items| - from <= limit
    requires Store.Lookup(rs, ItemKey(entry, i)).None? && Unused(entry, from, i, ItemKey(entry, i))
    ensures Store.Lookup(SeedItems(rs, limit, entry.resource, entry.items, from), ItemKey(entry, i)) == Some(entry.items[i])
    decreases |entry.items| - from
  {
    var k := ItemKey(entry, from);
    var after := Store.Create(rs, limit, k, entry.items[from]).0;
    Store.LookupAppend(rs, Store.Resource(k, entry.items[from]), ItemKey(entry, i));
    if from == i {
      SeedItemsLeave(after, limit, entry, from + 1, k);
    } else {
      SeedItemsFile(after, limit, entry, from + 1, i);
    }
  }

  function Total(seeds: seq<SeedEntry>): nat {
    if seeds == [] then 0 else |seeds[0].items| + Total(seeds[1..])
  }

  lemma {:induction false} SeedLeaves(rs: seq<Store.Resource>, limit: nat, seeds: seq<SeedEntry>, key: StoreKey)
    requires Store.Lookup(rs, key).Some?
    ensures Store.Lookup(Seed(rs, limit, seeds), key) == Store.Lookup(rs, key)
    decreases |seeds|
  {
    if seeds != [] {
      SeedItemsLeave(rs, limit, seeds[0], 0, key);
      SeedLeaves(SeedItems(rs, limit, seeds[0].resource, seeds[0].items, 0), limit, seeds[1..], key);
    }
  }

  lemma {:induction false} SeedFiles(rs: seq<Store.Resource>, limit: nat, seeds: seq<SeedEntry>, e: nat, i: nat)
    requires e < |seeds| && i < |seeds[e].items| && |rs| + Total(seeds) <= limit
    requires Store.Lookup(rs, ItemKey(seeds[e], i)).None? && Unused(seeds[e], 0, i, ItemKey(seeds[e], i))
    requires forall d :: 0 <= d < e ==> Unused(seeds[d], 0, |seeds[d].items|, ItemKey(seeds[e], i))
    ensures Store.Lookup(Seed(rs, limit, seeds), ItemKey(seeds[e], i)) == Some(seeds[e].items[i])
    decreases |seeds|
  {
    var key, first := ItemKey(seeds[e], i), seeds[0];
    var after := SeedItems(rs, limit, first.resource, first.items, 0);
    if e == 0 {
      SeedItemsFile(rs, limit, first, 0, i);
      SeedLeaves(after, limit, seeds[1..], key);
    } else {
      SeedItemsLeave(rs, limit, first, 0, key);
      assert seeds[1..][e - 1] == seeds[e];
      assert forall d :: 0 <= d < e - 1 ==> seeds[1..][d] == seeds[d + 1];
      SeedFiles(after, limit, seeds[1..], e - 1, i);
    }
  }

  /** A new instance whose seed fits its store holds every seed item that is the first
      under its key. */
  lemma {:induction false} SeedIsHeld(cfg: Config, scenario: string, entry: ScenarioEntry, e: nat, i: nat)
    requires FindScenario(cfg.sidecar.scenarios, scenario) == Some(entry)
    requires Total(entry.seed) <= cfg.maxStoreEntries && e < |entry.seed| && i < |entry.seed[e].items|
    requires Unused(entry.seed[e], 0, i, ItemKey(entry.seed[e], i))
    requires forall d :: 0 <= d < e ==> Unused(entry.seed[d], 0, |entry.seed[d].items|, ItemKey(entry.seed[e], i))
    ensures Store.Lookup(Fresh(cfg, scenario).resources, ItemKey(entry.seed[e], i)) == Some(entry.seed[e].items[i])
  {
    SeedFiles([], cfg.maxStoreEntries, entry.seed, e, i);
  }
}
