/** The replies a client has seen decide the replies it will see: books kept from commands
    and replies alone agree with every run, and say how any further request is answered. */
module RuntimeBooks {
  import opened Basics
  import opened JsonModel
  import opened ScenarioMachine
  import opened SidecarModel
  import opened StoreTypes
  import opened RuntimeSpec
  import opened RuntimeLaws
  import opened RuntimeOutcomes
  import Protocol = InstanceProtocol
  import Store = StoreSpec
  import Text

  // ---------------------------------------------------------------------------
  // The books
  // ---------------------------------------------------------------------------

  /** One session as its replies show it: a state, what is filed under which key, and the
      keys in the order they were filed. */
  datatype Account = Account(state: State, held: map<StoreKey, Json>, order: seq<StoreKey>)

  function KeySet(rs: seq<Store.Resource>): set<StoreKey> {
    set i | 0 <= i < |rs| :: rs[i].key
  }

  /** What a list of resources holds, order aside. */
  function Contents(rs: seq<Store.Resource>): map<StoreKey, Json> {
    map k | k in KeySet(rs) && Store.Lookup(rs, k).Some? :: Store.Lookup(rs, k).value
  }

  function OrderOf(rs: seq<Store.Resource>): (order: seq<StoreKey>)
    ensures |order| == |rs| && forall i :: 0 <= i < |rs| ==> order[i] == rs[i].key
  {
    if rs == [] then [] else [rs[0].key] + OrderOf(rs[1..])
  }

  function Opening(cfg: Config, scenario: string): Account {
    Abstract(Fresh(cfg, scenario))
  }

  function Abstract(inst: Instance): Account {
    Account(inst.state, Contents(inst.resources), OrderOf(inst.resources))
  }

  function Struck(order: seq<StoreKey>, key: StoreKey): seq<StoreKey> {
    if order == [] then [] else (if order[0] == key then [] else [order[0]]) + Struck(order[1..], key)
  }

  /** What a request that was not refused has filed, replaced or removed. */
  function Entered(acct: Account, use: StoreUse, req: Request, r: Resolution): Account {
    if r.Failed? || Addressed(use, req).None? then acct
    else
      var key := Addressed(use, req).value;
      match use.action
      case Create =>
        acct.(held := acct.held[key := CreatedValue(use, req, key.id)], order := acct.order + [key])
      case Update => acct.(held := acct.held[key := match req.body case Some(v) => v case None => Null])
      case Delete => acct.(held := acct.held - {key}, order := Struck(acct.order, key))
      case _ => acct
  }

  /** A reply that refuses the request before it reaches the store. */
  predicate TurnedAway(r: Resolution) {
    r.Failed? && r.failure.IllegalOperation?
  }

  function AfterRequest(acct: Account, entry: ScenarioEntry, op: OperationEntry, req: Request, r: Resolution): Account {
    if !req.validated || TurnedAway(r) then acct
    else
      (if op.store.Some? then Entered(acct, op.store.value, req, r) else acct)
        .(state := Protocol.Target(entry.Machine(), acct.state, op.name))
  }

  predicate CapRefusal(r: Resolution) {
    r.Failed? && r.failure.SessionCapExceeded?
  }

  /** The account of one session after a command and its reply; none while it is not live. */
  function Book(cfg: Config, key: SessionKey, acct: Option<Account>, cmd: Command, reply: Reply): Option<Account> {
    match cmd
    case Ask(req) =>
      var route := RouteOf(cfg, req);
      if route.Direct? || route.key != key || !reply.Resolved? || CapRefusal(reply.resolution) then acct
      else
        var base := if acct.Some? then acct.value else Opening(cfg, key.scenario);
        Some(AfterRequest(base, route.entry, route.op, req, reply.resolution))
    case Release(k) => if k == key then None else acct
    case ResetAll => if acct.Some? then Some(Opening(cfg, key.scenario)) else None
  }

  function Books(cfg: Config, key: SessionKey, acct: Option<Account>, cmds: seq<Command>, replies: seq<Reply>): Option<Account>
    requires |cmds| == |replies|
    decreases |cmds|
  {
    if cmds == [] then acct
    else Books(cfg, key, Book(cfg, key, acct, cmds[0], replies[0]), cmds[1..], replies[1..])
  }

  /** The sessions opened and not released, read off the replies. */
  function Register(cfg: Config, live: set<SessionKey>, cmds: seq<Command>, replies: seq<Reply>): set<SessionKey>
    requires |cmds| == |replies|
    decreases |cmds|
  {
    if cmds == [] then live
    else Register(cfg, Entry(cfg, live, cmds[0], replies[0]), cmds[1..], replies[1..])
  }

  function Entry(cfg: Config, live: set<SessionKey>, cmd: Command, reply: Reply): set<SessionKey> {
    match cmd
    case Ask(req) =>
      var route := RouteOf(cfg, req);
      if route.Direct? || !reply.Resolved? || CapRefusal(reply.resolution) then live else live + {route.key}
    case Release(k) => live - {k}
    case ResetAll => live
  }

  // ---------------------------------------------------------------------------
  // Contents of changed stores
  // ---------------------------------------------------------------------------

  lemma {:induction false} ContentsMeaning(rs: seq<Store.Resource>, key: StoreKey)
    ensures key in Contents(rs) <==> Store.Lookup(rs, key).Some?
    ensures key in Contents(rs) ==> Store.Lookup(rs, key) == Some(Contents(rs)[key])
  {
    Store.LookupFinds(rs, key);
  }

  lemma {:induction false} SameContents(rs: seq<Store.Resource>, m: map<StoreKey, Json>)
    requires forall k :: Store.Lookup(rs, k) == if k in m then Some(m[k]) else None
    ensures Contents(rs) == m
  {
    forall k ensures k in Contents(rs) <==> k in m {
      ContentsMeaning(rs, k);
    }
    forall k | k in m ensures Contents(rs)[k] == m[k] {
      ContentsMeaning(rs, k);
    }
  }

  lemma {:induction false} ContentsAfterCreate(rs: seq<Store.Resource>, key: StoreKey, value: Json)
    requires Store.Lookup(rs, key).None?
    ensures Contents(rs + [Store.Resource(key, value)]) == Contents(rs)[key := value]
  {
    var after := rs + [Store.Resource(key, value)];
    forall k
      ensures Store.Lookup(after, k) == if k in Contents(rs)[key := value] then Some(Contents(rs)[key := value][k]) else None
    {
      ContentsMeaning(rs, k);
      Store.LookupAppend(rs, Store.Resource(key, value), k);
    }
    SameContents(after, Contents(rs)[key := value]);
  }

  lemma {:induction false} ContentsAfterUpdate(rs: seq<Store.Resource>, key: StoreKey, value: Json)
    requires Store.Lookup(rs, key).Some?
    ensures Contents(Store.Replace(rs, key, value)) == Contents(rs)[key := value]
  {
    var after := Store.Replace(rs, key, value);
    forall k
      ensures Store.Lookup(after, k) == if k in Contents(rs)[key := value] then Some(Contents(rs)[key := value][k]) else None
    {
      ContentsMeaning(rs, k);
      Store.LookupReplace(rs, key, value, k);
    }
    SameContents(after, Contents(rs)[key := value]);
  }

  lemma {:induction false} ContentsAfterDelete(rs: seq<Store.Resource>, key: StoreKey)
    ensures Contents(Store.Without(rs, key)) == Contents(rs) - {key}
  {
    var after := Store.Without(rs, key);
    forall k
      ensures Store.Lookup(after, k) == if k in Contents(rs) - {key} then Some((Contents(rs) - {key})[k]) else None
    {
      ContentsMeaning(rs, k);
      Store.LookupWithout(rs, key, k);
    }
    SameContents(after, Contents(rs) - {key});
  }

  lemma {:induction false} OrderAfterUpdate(rs: seq<Store.Resource>, key: StoreKey, value: Json)
    ensures OrderOf(Store.Replace(rs, key, value)) == OrderOf(rs)
  {
    Store.ReplaceKeys(rs, key, value);
  }

  lemma {:induction false} OrderAfterDelete(rs: seq<Store.Resource>, key: StoreKey)
    ensures OrderOf(Store.Without(rs, key)) == Struck(OrderOf(rs), key)
  {
    if rs != [] {
      OrderAfterDelete(rs[1..], key);
      var rest := Store.Without(rs[1..], key);
      assert OrderOf(rs)[1..] == OrderOf(rs[1..]);
      if rs[0].key == key {
        assert Store.Without(rs, key) == rest;
      } else {
        assert Store.Without(rs, key)[1..] == rest;
      }
    }
  }

  /** The values of one namespace, in the order of the keys. */
  function Listed(order: seq<StoreKey>, held: map<StoreKey, Json>, namespace: string): seq<Json> {
    if order == [] then []
    else
      (if order[0].namespace == namespace && order[0] in held then [held[order[0]]] else [])
      + Listed(order[1..], held, namespace)
  }

  lemma {:induction false} ListedValues(rs: seq<Store.Resource>, held: map<StoreKey, Json>, namespace: string)
    requires forall i :: 0 <= i < |rs| ==> rs[i].key in held && held[rs[i].key] == rs[i].value
    ensures Listed(OrderOf(rs), held, namespace) == Store.List(rs, namespace)
  {
    if rs != [] {
      ListedValues(rs[1..], held, namespace);
      assert OrderOf(rs)[1..] == OrderOf(rs[1..]);
    }
  }

  lemma {:induction false} ListIsKept(rs: seq<Store.Resource>, namespace: string)
    requires Store.Distinct(rs)
    ensures Listed(OrderOf(rs), Contents(rs), namespace) == Store.List(rs, namespace)
  {
    forall i | 0 <= i < |rs| ensures rs[i].key in Contents(rs) && Contents(rs)[rs[i].key] == rs[i].value {
      ContentsMeaning(rs, rs[i].key);
      Store.LookupFinds(rs, rs[i].key);
    }
    ListedValues(rs, Contents(rs), namespace);
  }

  /** With distinct keys, the contents are as many as the resources. */
  lemma {:induction false} ContentsSize(rs: seq<Store.Resource>)
    requires Store.Distinct(rs)
    ensures |Contents(rs)| == |rs|
  {
    forall k ensures k in Contents(rs).Keys <==> k in KeySet(rs) {
      ContentsMeaning(rs, k);
      Store.LookupFinds(rs, k);
    }
    assert Contents(rs).Keys == KeySet(rs);
    KeySetSize(rs);
  }

  lemma {:induction false} KeySetSize(rs: seq<Store.Resource>)
    requires Store.Distinct(rs)
    ensures |KeySet(rs)| == |rs|
  {
    if rs != [] {
      var rest := rs[1..];
      KeySetSize(rest);
      assert KeySet(rs) == {rs[0].key} + KeySet(rest) by {
        assert forall i :: 0 < i < |rs| ==> rs[i] == rest[i - 1];
        assert forall i :: 0 <= i < |rest| ==> rest[i] == rs[i + 1];
      }
      assert rs[0].key !in KeySet(rest);
    }
  }

  // ---------------------------------------------------------------------------
  // The books agree with every run
  // ---------------------------------------------------------------------------

  function Kept(sessions: Sessions, key: SessionKey): Option<Account> {
    if key in sessions then Some(Abstract(sessions[key])) else None
  }

  lemma {:induction false} StoreIsEntered(inst: Instance, limit: nat, use: StoreUse, req: Request, r: Resolution)
    requires r.Failed? <==> ApplyStore(inst.resources, limit, use, req).1.Err?
    ensures Abstract(inst.(resources := ApplyStore(inst.resources, limit, use, req).0))
         == Entered(Abstract(inst), use, req, r)
  {
    var rs := inst.resources;
    StoreFailuresAreExact(rs, limit, use, req);
    if !r.Failed? && Addressed(use, req).Some? {
      var key := Addressed(use, req).value;
      match use.action
      case Create => ContentsAfterCreate(rs, key, CreatedValue(use, req, key.id));
      case Update =>
        var value := match req.body case Some(v) => v case None => Null;
        ContentsAfterUpdate(rs, key, value);
        OrderAfterUpdate(rs, key, value);
      case Delete =>
        ContentsAfterDelete(rs, key);
        OrderAfterDelete(rs, key);
      case _ =>
    }
  }

  /** A reply is a failure exactly when the store's is, once the store is reached. */
  lemma {:induction false} FailureShows(
    entry: ScenarioEntry, op: OperationEntry, session: string, limit: nat, inst: Instance, req: Request, use: StoreUse)
    requires Reaches(entry, op, inst, req, use)
    ensures
      var r := ServeInstance(entry, op, session, limit, inst, req).1;
      && (r.Failed? <==> ApplyStore(inst.resources, limit, use, req).1.Err?)
      && !TurnedAway(r)
  {
    StoreGivesBodies(inst.resources, limit, use, req);
    StoreNeverReportsIllegal(inst.resources, limit, use, req);
  }

  lemma {:induction false} ServedAccount(
    entry: ScenarioEntry, op: OperationEntry, session: string, limit: nat, inst: Instance, req: Request)
    ensures
      var (after, r) := ServeInstance(entry, op, session, limit, inst, req);
      Abstract(after) == AfterRequest(Abstract(inst), entry, op, req, r)
  {
    if entry.Machine().Allows(inst.state, op.name) && req.validated && op.store.Some? {
      var r := ServeInstance(entry, op, session, limit, inst, req).1;
      FailureShows(entry, op, session, limit, inst, req, op.store.value);
      StoreIsEntered(inst, limit, op.store.value, req, r);
    }
  }

  lemma {:induction false} NotACapRefusal(
    entry: ScenarioEntry, op: OperationEntry, session: string, limit: nat, inst: Instance, req: Request)
    ensures !CapRefusal(ServeInstance(entry, op, session, limit, inst, req).1)
  {
    if op.store.Some? {
      StoreNeverReportsSessions(inst.resources, limit, op.store.value, req);
    }
  }

  lemma {:induction false} AskIsBooked(cfg: Config, sessions: Sessions, req: Request, key: SessionKey)
    ensures
      var (after, r) := Serve(cfg, sessions, req);
      && Kept(after, key) == Book(cfg, key, Kept(sessions, key), Ask(req), Resolved(r))
      && after.Keys == Entry(cfg, sessions.Keys, Ask(req), Resolved(r))
  {
    var route := RouteOf(cfg, req);
    if route.Governed? && (route.key in sessions || |sessions| < cfg.maxSessions) {
      var inst := if route.key in sessions then sessions[route.key] else Fresh(cfg, route.key.scenario);
      ServedAccount(route.entry, route.op, route.key.session, cfg.maxStoreEntries, inst, req);
      NotACapRefusal(route.entry, route.op, route.key.session, cfg.maxStoreEntries, inst, req);
    }
  }

  lemma {:induction false} StepIsBooked(cfg: Config, sessions: Sessions, cmd: Command, key: SessionKey)
    ensures
      var (after, reply) := Step(cfg, sessions, cmd);
      && Kept(after, key) == Book(cfg, key, Kept(sessions, key), cmd, reply)
      && after.Keys == Entry(cfg, sessions.Keys, cmd, reply)
  {
    match cmd
    case Ask(req) => AskIsBooked(cfg, sessions, req, key);
    case Release(_) =>
    case ResetAll => assert Reset(cfg, sessions).Keys == sessions.Keys;
  }

  lemma {:induction false} OneReplyEach(cfg: Config, sessions: Sessions, cmds: seq<Command>)
    ensures |Run(cfg, sessions, cmds).1| == |cmds|
    decreases |cmds|
  {
    if cmds != [] {
      OneReplyEach(cfg, Step(cfg, sessions, cmds[0]).0, cmds[1..]);
    }
  }

  lemma {:induction false} RunUnfolds(cfg: Config, sessions: Sessions, cmds: seq<Command>)
    requires cmds != []
    ensures
      var (next, reply) := Step(cfg, sessions, cmds[0]);
      var (after, replies) := Run(cfg, sessions, cmds);
      replies != [] && replies[0] == reply && (after, replies[1..]) == Run(cfg, next, cmds[1..])
  {
  }

  /** Over any run, each session's state and contents, and the set of live sessions, are
      what the commands and their replies say. */
  lemma {:induction false} BooksAgree(cfg: Config, sessions: Sessions, cmds: seq<Command>, key: SessionKey)
    ensures
      var (after, replies) := Run(cfg, sessions, cmds);
      && |replies| == |cmds|
      && Kept(after, key) == Books(cfg, key, Kept(sessions, key), cmds, replies)
      && after.Keys == Register(cfg, sessions.Keys, cmds, replies)
    decreases |cmds|
  {
    OneReplyEach(cfg, sessions, cmds);
    if cmds != [] {
      StepIsBooked(cfg, sessions, cmds[0], key);
      RunUnfolds(cfg, sessions, cmds);
      BooksAgree(cfg, Step(cfg, sessions, cmds[0]).0, cmds[1..], key);
    }
  }

  // ---------------------------------------------------------------------------
  // Every reply is decided by the books
  // ---------------------------------------------------------------------------

  /** The text a failure names a resource by. */
  function NameOf(key: StoreKey): string {
    key.namespace + "/" + key.id
  }

  /** The failure the books foretell for a request that reaches the store, if any. */
  function Foretold(acct: Account, limit: nat, use: StoreUse, req: Request): Option<StatefulFailure> {
    var target := Addressed(use, req);
    if use.action.List? then None
    else if target.None? then Some(ResourceNotFound(Namespace(use, req)))
    else if use.action.Create? then
      if |acct.held| >= limit then Some(StoreCapExceeded(limit))
      else if target.value in acct.held then Some(ResourceExists(NameOf(target.value)))
      else None
    else if target.value in acct.held then None
    else Some(ResourceNotFound(NameOf(target.value)))
  }

  /** What the store is to answer. */
  function StoreReply(acct: Account, limit: nat, use: StoreUse, req: Request): Resolution {
    var failure := Foretold(acct, limit, use, req);
    if failure.Some? then Failed(failure.value)
    else
      match use.action
      case List => Body(Arr(Listed(acct.order, acct.held, Namespace(use, req))))
      case Create => Body(CreatedValue(use, req, Addressed(use, req).value.id))
      case Read => Body(acct.held[Addressed(use, req).value])
      case Update => Body(match req.body case Some(v) => v case None => Null)
      case Delete => Empty
  }

  /** A failure stands.  Otherwise a declared override pins the status, and the body is the
      override's if it declares one, else the body there would have been. */
  function Dressed(plain: Resolution, chosen: Option<Override>): Resolution {
    if plain.Failed? || chosen.None? then plain
    else
      var status := match Text.ParseUnsigned(chosen.value.status, 0x1_0000) case Some(n) => n case None => 500;
      Forced(status, if chosen.value.body.Some? then chosen.value.body else Served(plain))
  }

  /** The operation is declared in the booked state. */
  predicate Declared(acct: Account, entry: ScenarioEntry, op: OperationEntry) {
    acct.state in entry.states && op.name in entry.states[acct.state]
  }

  /** The first response declared for the operation in its state, else for the operation. */
  function Chosen(acct: Account, entry: ScenarioEntry, op: OperationEntry): Option<Override>
    requires Declared(acct, entry, op)
  {
    var step := entry.states[acct.state][op.name].responses;
    if |step| > 0 then Some(step[0]) else if |op.responses| > 0 then Some(op.responses[0]) else None
  }

  /** The reply the account of a session foretells. */
  function Foretell(cfg: Config, acct: Account, entry: ScenarioEntry, op: OperationEntry, session: string, req: Request): Resolution {
    if !Declared(acct, entry, op) then Failed(IllegalOperation(entry.name, session, acct.state, op.name))
    else if !req.validated then Ungoverned
    else
      Dressed(
        if op.store.None? then Ungoverned else StoreReply(acct, cfg.maxStoreEntries, op.store.value, req),
        Chosen(acct, entry, op))
  }

  lemma {:induction false} FailureIsForetold(inst: Instance, limit: nat, use: StoreUse, req: Request)
    requires Store.Distinct(inst.resources)
    ensures
      var failure := Foretold(Abstract(inst), limit, use, req);
      var r := ApplyStore(inst.resources, limit, use, req).1;
      r.Err? == failure.Some? && (r.Err? ==> r.error == failure.value)
  {
    StoreFailuresAreExact(inst.resources, limit, use, req);
    ContentsSize(inst.resources);
    if Addressed(use, req).Some? {
      ContentsMeaning(inst.resources, Addressed(use, req).value);
    }
  }

  lemma {:induction false} StoreIsForetold(inst: Instance, limit: nat, use: StoreUse, req: Request)
    requires Store.Distinct(inst.resources)
    ensures StoreReply(Abstract(inst), limit, use, req)
         == match ApplyStore(inst.resources, limit, use, req).1
            case Ok(resolution) => resolution
            case Err(failure) => Failed(failure)
  {
    FailureIsForetold(inst, limit, use, req);
    ListIsKept(inst.resources, Namespace(use, req));
    if Addressed(use, req).Some? {
      ContentsMeaning(inst.resources, Addressed(use, req).value);
    }
  }

  lemma {:induction false} InstanceIsForetold(cfg: Config, entry: ScenarioEntry, op: OperationEntry, session: string, inst: Instance, req: Request)
    requires Store.Distinct(inst.resources)
    ensures ServeInstance(entry, op, session, cfg.maxStoreEntries, inst, req).1
         == Foretell(cfg, Abstract(inst), entry, op, session, req)
  {
    if op.store.Some? {
      StoreIsForetold(inst, cfg.maxStoreEntries, op.store.value, req);
      StoreGivesBodies(inst.resources, cfg.maxStoreEntries, op.store.value, req);
    }
  }

  /** After any run, the reply to any request that is about a session: refused by the
      session cap exactly when that many sessions are on the register and this is not one
      of them; otherwise the very reply the session's account, or an opening one, foretells. */
  lemma {:induction false} RepliesDecideReplies(cfg: Config, past: seq<Command>, req: Request)
    requires RouteOf(cfg, req).Governed?
    ensures
      var Governed(key, entry, op) := RouteOf(cfg, req);
      var (sessions, replies) := Run(cfg, map[], past);
      && |replies| == |past|
      && var acct, live := Books(cfg, key, None, past, replies), Register(cfg, {}, past, replies);
         Serve(cfg, sessions, req).1
         == if key !in live && |live| >= cfg.maxSessions then Failed(SessionCapExceeded(cfg.maxSessions))
            else Foretell(cfg, if acct.Some? then acct.value else Opening(cfg, key.scenario), entry, op, key.session, req)
  {
    var Governed(key, entry, op) := RouteOf(cfg, req);
    var sessions := Run(cfg, map[], past).0;
    var none: Sessions := map[];
    assert none.Keys == {} && Kept(none, key) == None;
    BooksAgree(cfg, none, past, key);
    RunInvariant(cfg, none, past);
    assert |sessions| == |sessions.Keys|;
    var inst := if key in sessions then sessions[key] else Fresh(cfg, key.scenario);
    FreshSound(cfg, key);
    assert Sound(cfg, key, inst);
    InstanceIsForetold(cfg, entry, op, key.session, inst, req);
  }
}
