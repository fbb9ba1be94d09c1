/** Which instance a request is about, in terms of the request and the sidecar alone, and
    that nothing done under one session name is seen under another. */
module Routing {
  import opened Basics
  import opened JsonModel
  import opened ScenarioMachine
  import opened SidecarModel
  import opened StoreTypes
  import opened RuntimeSpec
  import opened RuntimeLaws
  import opened LetterCase
  import Text

  // ---------------------------------------------------------------------------
  // Request keys
  // ---------------------------------------------------------------------------

  /** Without a space in the methods, two requests share a key exactly when the paths are
      equal and the methods are up to case. */
  lemma {:induction false} KeyMeaning(m: string, p: string, m': string, p': string)
    requires ' ' !in m && ' ' !in m'
    ensures RequestKey(m, p) == RequestKey(m', p') <==> SameUpToCase(m, m') && p == p'
  {
    LowerMeaning(m, m');
    NoSpaceInLower(m);
    NoSpaceInLower(m');
    CutAtSpace(Text.AsciiLower(m), p, Text.AsciiLower(m'), p');
  }

  lemma {:induction false} CutAtSpace(a: string, p: string, b: string, q: string)
    requires ' ' !in a && ' ' !in b
    ensures a + " " + p == b + " " + q <==> a == b && p == q
  {
    var x, y := a + " " + p, b + " " + q;
    Text.IndexOfFirst(a, ' ', p);
    Text.IndexOfFirst(b, ' ', q);
    assert x == a + [' '] + p && y == b + [' '] + q;
    if x == y {
      assert a == x[..|a|] && b == y[..|b|];
      assert p == x[|a| + 1..] && q == y[|b| + 1..];
    }
  }

  /** A space in a method can make two different requests one. */
  lemma {:induction false} SpacesCollide(a: string, b: string, p: string)
    ensures RequestKey(a, b + " " + p) == RequestKey(a + " " + b, p) <==> Text.AsciiLower(b) == b
  {
    var l, k := Text.AsciiLower(a), Text.AsciiLower(b);
    LowerOfSpaced(a, b);
    assert l + " " + k + " " + p == l + " " + (k + " " + p);
    SameMiddle(l + " ", b, k, " " + p);
    assert (l + " ") + b + (" " + p) == l + " " + (b + " " + p);
    assert (l + " ") + k + (" " + p) == l + " " + k + " " + p;
  }

  lemma {:induction false} LowerOfSpaced(a: string, b: string)
    ensures Text.AsciiLower(a + " " + b) == Text.AsciiLower(a) + " " + Text.AsciiLower(b)
  {
    LowerOfSum(a + " ", b);
    LowerOfSum(a, " ");
    LowerKeeps(" ");
  }

  lemma {:induction false} SameMiddle(front: string, x: string, y: string, back: string)
    requires |x| == |y|
    ensures front + x + back == front + y + back <==> x == y
  {
    assert (front + x + back)[|front|..|front| + |x|] == x;
    assert (front + y + back)[|front|..|front| + |y|] == y;
  }

  // ---------------------------------------------------------------------------
  // Governance
  // ---------------------------------------------------------------------------

  /** The first scenario listed under a name. */
  ghost predicate FirstNamed(scenarios: seq<ScenarioEntry>, name: string, entry: ScenarioEntry) {
    exists i :: 0 <= i < |scenarios| && scenarios[i] == entry && entry.name == name
      && forall j :: 0 <= j < i ==> scenarios[j].name != name
  }

  lemma {:induction false} FindScenarioMeaning(scenarios: seq<ScenarioEntry>, name: string, entry: ScenarioEntry)
    ensures FindScenario(scenarios, name) == Some(entry) <==> FirstNamed(scenarios, name, entry)
  {
    if scenarios != [] {
      if scenarios[0].name == name {
        FirstIsNamed(scenarios, entry);
      } else {
        FindScenarioMeaning(scenarios[1..], name, entry);
        NamedInRest(scenarios, name, entry);
      }
    }
  }

  lemma {:induction false} NamedInRest(scenarios: seq<ScenarioEntry>, name: string, entry: ScenarioEntry)
    requires scenarios != [] && scenarios[0].name != name
    ensures FirstNamed(scenarios, name, entry) <==> FirstNamed(scenarios[1..], name, entry)
  {
    var rest := scenarios[1..];
    if FirstNamed(rest, name, entry) {
      var i :| 0 <= i < |rest| && rest[i] == entry && entry.name == name
        && forall j :: 0 <= j < i ==> rest[j].name != name;
      assert scenarios[i + 1] == entry;
      assert forall j :: 0 < j < i + 1 ==> scenarios[j] == rest[j - 1];
    }
    if FirstNamed(scenarios, name, entry) {
      var i :| 0 <= i < |scenarios| && scenarios[i] == entry && entry.name == name
        && forall j :: 0 <= j < i ==> scenarios[j].name != name;
      assert rest[i - 1] == entry;
      assert forall j :: 0 <= j < i - 1 ==> rest[j] == scenarios[j + 1];
    }
  }

  /** The operation is declared for this method, in any case, and this very path. */
  predicate DeclaredFor(op: OperationEntry, httpMethod: string, path: string) {
    op.path == path && SameUpToCase(op.httpMethod, httpMethod)
  }

  predicate LastAt(operations: seq<OperationEntry>, httpMethod: string, path: string, i: nat) {
    && i < |operations| && DeclaredFor(operations[i], httpMethod, path)
    && forall j :: i < j < |operations| ==> !DeclaredFor(operations[j], httpMethod, path)
  }

  ghost predicate LastDeclared(operations: seq<OperationEntry>, httpMethod: string, path: string, op: OperationEntry) {
    exists i: nat :: LastAt(operations, httpMethod, path, i) && operations[i] == op
  }

  predicate Spaceless(operations: seq<OperationEntry>) {
    forall i :: 0 <= i < |operations| ==> ' ' !in operations[i].httpMethod
  }

  lemma {:induction false} LastIsLast(operations: seq<OperationEntry>, httpMethod: string, path: string, op: OperationEntry)
    requires operations != [] && DeclaredFor(operations[|operations| - 1], httpMethod, path)
    ensures LastDeclared(operations, httpMethod, path, op) <==> op == operations[|operations| - 1]
  {
    assert LastAt(operations, httpMethod, path, |operations| - 1);
  }

  lemma {:induction false} LastOfFront(operations: seq<OperationEntry>, httpMethod: string, path: string, op: OperationEntry)
    requires operations != [] && !DeclaredFor(operations[|operations| - 1], httpMethod, path)
    ensures LastDeclared(operations, httpMethod, path, op)
       <==> LastDeclared(operations[..|operations| - 1], httpMethod, path, op)
  {
    var front := operations[..|operations| - 1];
    forall i: nat ensures LastAt(front, httpMethod, path, i) <==> LastAt(operations, httpMethod, path, i) {
    }
    if LastDeclared(operations, httpMethod, path, op) {
      var i: nat :| LastAt(operations, httpMethod, path, i) && operations[i] == op;
      assert LastAt(front, httpMethod, path, i) && front[i] == op;
    }
    if LastDeclared(front, httpMethod, path, op) {
      var i: nat :| LastAt(front, httpMethod, path, i) && front[i] == op;
      assert LastAt(operations, httpMethod, path, i) && operations[i] == op;
    }
  }

  lemma {:induction false} FindOperationMeaning(operations: seq<OperationEntry>, httpMethod: string, path: string, op: OperationEntry)
    requires Spaceless(operations) && ' ' !in httpMethod
    ensures FindOperation(operations, RequestKey(httpMethod, path)) == Some(op)
       <==> LastDeclared(operations, httpMethod, path, op)
    decreases |operations|
  {
    if operations != [] {
      var front, last := operations[..|operations| - 1], operations[|operations| - 1];
      KeyMeaning(last.httpMethod, last.path, httpMethod, path);
      if DeclaredFor(last, httpMethod, path) {
        LastIsLast(operations, httpMethod, path, op);
      } else {
        LastOfFront(operations, httpMethod, path, op);
        FindOperationMeaning(front, httpMethod, path, op);
      }
    }
  }

  /** The scenario a request is about: the one it names, else the first. */
  ghost predicate MeansScenario(scenarios: seq<ScenarioEntry>, req: Request, entry: ScenarioEntry) {
    match req.scenario
    case Some(name) => FirstNamed(scenarios, name, entry)
    case None => scenarios != [] && entry == scenarios[0]
  }

  /** The session a request is about: the one it names, else the default one. */
  function SessionOf(req: Request): string {
    match req.session case Some(name) => name case None => "__default__"
  }

  /** A request is governed exactly when it does not ask for a status itself, its scenario
      exists and the catalogue declares its method and path; the last declaration counts. */
  lemma {:induction false} GovernedMeaning(cfg: Config, req: Request, key: SessionKey, entry: ScenarioEntry, op: OperationEntry)
    requires Spaceless(cfg.sidecar.operations) && ' ' !in req.httpMethod
    ensures RouteOf(cfg, req) == Governed(key, entry, op)
       <==> !req.preferCode && MeansScenario(cfg.sidecar.scenarios, req, entry)
            && LastDeclared(cfg.sidecar.operations, req.httpMethod, req.path, op)
            && key == SessionKey(entry.name, SessionOf(req))
  {
    var scenarios := cfg.sidecar.scenarios;
    var name := if req.scenario.Some? then req.scenario.value else if scenarios != [] then scenarios[0].name else "";
    FindScenarioMeaning(scenarios, name, entry);
    if scenarios != [] {
      FirstIsNamed(scenarios, entry);
    }
    FindOperationMeaning(cfg.sidecar.operations, req.httpMethod, req.path, op);
  }

  lemma {:induction false} FirstIsNamed(scenarios: seq<ScenarioEntry>, entry: ScenarioEntry)
    requires scenarios != []
    ensures FirstNamed(scenarios, scenarios[0].name, entry) <==> entry == scenarios[0]
  {
    assert scenarios[0].name == scenarios[0].name;
    if FirstNamed(scenarios, scenarios[0].name, entry) {
      var i :| 0 <= i < |scenarios| && scenarios[i] == entry
        && forall j :: 0 <= j < i ==> scenarios[j].name != scenarios[0].name;
      assert i == 0;
    }
  }

  /** An ungoverned request is answered without touching a session: as if there were no
      sidecar, unless it names a scenario that does not exist. */
  lemma {:induction false} UngovernedMeaning(cfg: Config, sessions: Sessions, req: Request)
    requires RouteOf(cfg, req).Direct?
    ensures Serve(cfg, sessions, req).0 == sessions
    ensures Serve(cfg, sessions, req).1
         == if !req.preferCode && req.scenario.Some?
               && forall i :: 0 <= i < |cfg.sidecar.scenarios| ==> cfg.sidecar.scenarios[i].name != req.scenario.value
            then Failed(UnknownScenario(req.scenario.value, Names(cfg.sidecar.scenarios)))
            else Ungoverned
  {
    if req.scenario.Some? {
      MissingScenario(cfg.sidecar.scenarios, req.scenario.value);
    } else if cfg.sidecar.scenarios != [] {
      assert FindScenario(cfg.sidecar.scenarios, cfg.sidecar.scenarios[0].name).Some?;
    }
  }

  lemma {:induction false} MissingScenario(scenarios: seq<ScenarioEntry>, name: string)
    ensures FindScenario(scenarios, name).None? <==> forall i :: 0 <= i < |scenarios| ==> scenarios[i].name != name
  {
    if scenarios != [] {
      MissingScenario(scenarios[1..], name);
      assert forall i :: 0 < i < |scenarios| ==> scenarios[i] == scenarios[1..][i - 1];
    }
  }

  lemma {:induction false} NamesMeaning(scenarios: seq<ScenarioEntry>)
    ensures |Names(scenarios)| == |scenarios| && forall i :: 0 <= i < |scenarios| ==> Names(scenarios)[i] == scenarios[i].name
  {
    if scenarios != [] {
      NamesMeaning(scenarios[1..]);
    }
  }

  /** No request to a control endpoint is governed by a validated sidecar. */
  lemma {:induction false} ControlEndpointsAreFree(cfg: Config, req: Request)
    requires WellFormed(cfg.sidecar) && "/_specmock" <= req.path
    requires Spaceless(cfg.sidecar.operations) && ' ' !in req.httpMethod
    ensures RouteOf(cfg, req).Direct?
  {
    var operations := cfg.sidecar.operations;
    forall i | 0 <= i < |operations| ensures !DeclaredFor(operations[i], req.httpMethod, req.path) {
      assert WellFormedOperation(operations[i]);
    }
    if RouteOf(cfg, req).Governed? {
      var Governed(key, entry, op) := RouteOf(cfg, req);
      GovernedMeaning(cfg, req, key, entry, op);
    }
  }

  // ---------------------------------------------------------------------------
  // Sessions do not see each other
  // ---------------------------------------------------------------------------

  /** Two runtimes that hold the same under a session name. */
  ghost predicate SameUnder(name: string, a: Sessions, b: Sessions) {
    forall k: SessionKey :: k.session == name ==> (k in a <==> k in b) && (k in a ==> a[k] == b[k])
  }

  lemma {:induction false} RoutedSession(cfg: Config, req: Request)
    ensures RouteOf(cfg, req).Governed? ==> RouteOf(cfg, req).key.session == SessionOf(req)
  {
  }

  /** A request under another name changes nothing under this one. */
  lemma {:induction false} OtherNameUnseen(cfg: Config, sessions: Sessions, req: Request, name: string)
    requires SessionOf(req) != name
    ensures SameUnder(name, sessions, Serve(cfg, sessions, req).0)
  {
    RoutedSession(cfg, req);
    forall k: SessionKey | k.session == name
      ensures
        var after := Serve(cfg, sessions, req).0;
        (k in sessions <==> k in after) && (k in sessions ==> sessions[k] == after[k])
    {
      RequestIsIsolated(cfg, sessions, req, k);
    }
  }

  lemma {:induction false} SameNameAlike(cfg: Config, a: Sessions, b: Sessions, req: Request, name: string)
    requires SameUnder(name, a, b) && SessionOf(req) == name
    requires |a| < cfg.maxSessions && |b| < cfg.maxSessions
    ensures Serve(cfg, a, req).1 == Serve(cfg, b, req).1
    ensures SameUnder(name, Serve(cfg, a, req).0, Serve(cfg, b, req).0)
  {
    RoutedSession(cfg, req);
  }

  lemma {:induction false} StepAlike(cfg: Config, a: Sessions, b: Sessions, cmd: Command, name: string)
    requires SameUnder(name, a, b) && |a| < cfg.maxSessions && |b| < cfg.maxSessions
    ensures SameUnder(name, Step(cfg, a, cmd).0, Step(cfg, b, cmd).0)
  {
    match cmd
    case Ask(req) =>
      if SessionOf(req) == name {
        SameNameAlike(cfg, a, b, req, name);
      } else {
        OtherNameUnseen(cfg, a, req, name);
        OtherNameUnseen(cfg, b, req, name);
      }
    case Release(_) =>
    case ResetAll =>
  }

  /** One command opens at most one session. */
  lemma {:induction false} AtMostOneMore(cfg: Config, sessions: Sessions, cmd: Command)
    ensures |Step(cfg, sessions, cmd).0| <= |sessions| + 1
  {
    match cmd
    case Ask(req) => ServeOpensOne(cfg, sessions, req);
    case Release(key) => ReleaseSize(sessions, key);
    case ResetAll => assert Reset(cfg, sessions).Keys == sessions.Keys;
  }

  lemma {:induction false} ServeOpensOne(cfg: Config, sessions: Sessions, req: Request)
    ensures |Serve(cfg, sessions, req).0| <= |sessions| + 1
  {
    var route, after := RouteOf(cfg, req), Serve(cfg, sessions, req).0;
    if route.Governed? && after != sessions {
      assert after.Keys == sessions.Keys + {route.key};
    }
  }

  lemma {:induction false} RunAlike(cfg: Config, a: Sessions, b: Sessions, cmds: seq<Command>, name: string)
    requires SameUnder(name, a, b)
    requires |a| + |cmds| < cfg.maxSessions && |b| + |cmds| < cfg.maxSessions
    ensures SameUnder(name, Run(cfg, a, cmds).0, Run(cfg, b, cmds).0)
    ensures |Run(cfg, a, cmds).0| < cfg.maxSessions && |Run(cfg, b, cmds).0| < cfg.maxSessions
    decreases |cmds|
  {
    if cmds != [] {
      StepAlike(cfg, a, b, cmds[0], name);
      AtMostOneMore(cfg, a, cmds[0]);
      AtMostOneMore(cfg, b, cmds[0]);
      RunAlike(cfg, Step(cfg, a, cmds[0]).0, Step(cfg, b, cmds[0]).0, cmds[1..], name);
    }
  }

  /** While the session cap has room, a request made anywhere in a run changes no later
      reply to a request of another session name, whatever is done in between. */
  lemma {:induction false} SessionsDoNotMeet(cfg: Config, sessions: Sessions, a: Request, between: seq<Command>, b: Request)
    requires SessionOf(a) != SessionOf(b)
    requires |sessions| + 1 + |between| < cfg.maxSessions
    ensures Serve(cfg, Run(cfg, Step(cfg, sessions, Ask(a)).0, between).0, b).1
         == Serve(cfg, Run(cfg, sessions, between).0, b).1
  {
    var after := Step(cfg, sessions, Ask(a)).0;
    OtherNameUnseen(cfg, sessions, a, SessionOf(b));
    AtMostOneMore(cfg, sessions, Ask(a));
    RunAlike(cfg, sessions, after, between, SessionOf(b));
    SameNameAlike(cfg, Run(cfg, sessions, between).0, Run(cfg, after, between).0, b, SessionOf(b));
  }
}
