/** What callers of the concurrent store are told.  Each operation takes effect at one
    access between its call and its answer, and the answer is what a plain map would have
    given there: the store is linearizable. */
module StoreLinear {
  import opened Basics
  import opened JsonModel
  import opened StoreTypes
  import opened StoreProtocol

  // ---------------------------------------------------------------------------
  // The plain map
  // ---------------------------------------------------------------------------

  /** One operation on a map, without capacity. */
  function Perform(m: map<StoreKey, Json>, op: Operation): (map<StoreKey, Json>, Outcome) {
    match op
    case Create(key, value) =>
      if key in m then (m, Failed(AlreadyExists(key))) else (m[key := value], Done)
    case Update(key, value) =>
      if key in m then (m[key := value], Done) else (m, Failed(NotFound(key)))
    case Delete(key) =>
      if key in m then (m - {key}, Done) else (m, Failed(NotFound(key)))
    case Read(key) => (m, Found(if key in m then Some(m[key]) else None))
    case Len => (m, Length(|m|))
  }

  // ---------------------------------------------------------------------------
  // What can be observed of a run
  // ---------------------------------------------------------------------------

  /** A call, the access at which an operation meets the entries, and an answer. */
  datatype Record =
    | Called(caller: nat, op: Operation)
    | Took(caller: nat)
    | Told(caller: nat, outcome: Outcome)

  /** The accesses that meet the entries. */
  predicate Meets(c: Caller) {
    c.Inserting? || c.Removing? || c.Reading? || c.Updating?
  }

  function Observe(s: System, a: Action): seq<Record> {
    match a
    case Begin(t, op) => if t in s.callers && !s.callers[t].Finished? then [] else [Called(t, op)]
    case Advance(t) =>
      if t !in s.callers || s.callers[t].Finished? then []
      else
        var after := Access(s, t).callers[t];
        (if Meets(s.callers[t]) then [Took(t)] else [])
        + (if after.Finished? then [Told(t, after.outcome)] else [])
  }

  function Trace(s: System, schedule: seq<Action>): seq<Record>
    decreases |schedule|
  {
    if schedule == [] then [] else Observe(s, schedule[0]) + Trace(Step(s, schedule[0]), schedule[1..])
  }

  // ---------------------------------------------------------------------------
  // The referee
  // ---------------------------------------------------------------------------

  /** An operation under way, and the answer the map gave it if it has taken effect. */
  datatype Pending = Pending(op: Operation, answer: Option<Outcome>)

  /** The map as the operations taken so far leave it, and the operations under way. */
  datatype Board = Board(held: map<StoreKey, Json>, pending: map<nat, Pending>)

  /** An answer is the one the map gave; or, for an operation that met nothing, a refusal
      or a count that the entries and the operations under way account for. */
  predicate Fair(limit: nat, b: Board, p: Pending, outcome: Outcome) {
    || p.answer == Some(outcome)
    || (p.answer.None? && p.op.Create? && outcome == Failed(CapacityExceeded(limit))
        && limit < |b.held| + |b.pending|)
    || (p.answer.None? && p.op.Len? && outcome.Length?
        && |b.held| <= outcome.n < |b.held| + |b.pending|)
  }

  predicate Allowed(limit: nat, b: Board, r: Record) {
    match r
    case Called(t, _) => t !in b.pending
    case Took(t) => t in b.pending && b.pending[t].answer.None?
    case Told(t, outcome) => t in b.pending && Fair(limit, b, b.pending[t], outcome)
  }

  function Post(b: Board, r: Record): Board {
    match r
    case Called(t, op) => b.(pending := b.pending[t := Pending(op, None)])
    case Took(t) =>
      if t !in b.pending then b
      else
        var (held, answer) := Perform(b.held, b.pending[t].op);
        Board(held, b.pending[t := Pending(b.pending[t].op, Some(answer))])
    case Told(t, _) => b.(pending := b.pending - {t})
  }

  predicate Passes(limit: nat, b: Board, trace: seq<Record>)
    decreases |trace|
  {
    trace == [] || (Allowed(limit, b, trace[0]) && Passes(limit, Post(b, trace[0]), trace[1..]))
  }

  function PostAll(b: Board, trace: seq<Record>): Board
    decreases |trace|
  {
    if trace == [] then b else PostAll(Post(b, trace[0]), trace[1..])
  }

  lemma {:induction false} TraceParts(limit: nat, b: Board, x: seq<Record>, y: seq<Record>)
    ensures PostAll(b, x + y) == PostAll(PostAll(b, x), y)
    ensures Passes(limit, b, x + y) <==> Passes(limit, b, x) && Passes(limit, PostAll(b, x), y)
    decreases |x|
  {
    if x == [] {
      assert x + y == y;
    } else {
      assert (x + y)[0] == x[0] && (x + y)[1..] == x[1..] + y;
      TraceParts(limit, Post(b, x[0]), x[1..], y);
    }
  }

  // ---------------------------------------------------------------------------
  // The store passes
  // ---------------------------------------------------------------------------

  /** Where a caller stands agrees with the operation it called and what the map told it. */
  predicate Stands(c: Caller, p: Pending) {
    match c
    case Loading(key, value) => p == Pending(Create(key, value), None)
    case Swapping(key, value, _) => p == Pending(Create(key, value), None)
    case Inserting(key, value) => p == Pending(Create(key, value), None)
    case Releasing(key) => p.op.Create? && p.answer == Some(Failed(AlreadyExists(key)))
    case Removing(key) => p == Pending(Delete(key), None)
    case Decrementing => p.op.Delete? && p.answer == Some(Done)
    case Reading(key) => p == Pending(Read(key), None)
    case Updating(key, value) => p == Pending(Update(key, value), None)
    case Measuring => p == Pending(Len, None)
    case Finished(_) => false
  }

  ghost predicate Agrees(s: System, b: Board) {
    && s.entries == b.held
    && (forall t :: t in b.pending <==> t in s.callers && !s.callers[t].Finished?)
    && (forall t :: t in b.pending ==> Stands(s.callers[t], b.pending[t]))
  }

  /** Every caller that holds a unit is under way, and so is a caller that holds none. */
  lemma {:induction false} HoldersArePending(s: System, b: Board, t: nat)
    requires Agrees(s, b) && t in b.pending && !s.callers[t].Holds()
    ensures |Holders(s.callers)| < |b.pending|
  {
    var others := b.pending.Keys - {t};
    assert Holders(s.callers) <= others;
    SubsetSize(Holders(s.callers), others);
  }

  lemma {:induction false} SubsetSize(a: set<nat>, b: set<nat>)
    requires a <= b
    ensures |a| <= |b|
  {
    assert b == a + (b - a);
  }

  lemma {:induction false} CallPasses(s: System, b: Board, t: nat, op: Operation)
    requires Agrees(s, b)
    ensures
      var trace := Observe(s, Begin(t, op));
      Passes(s.limit, b, trace) && Agrees(Step(s, Begin(t, op)), PostAll(b, trace))
  {
    if t !in s.callers || s.callers[t].Finished? {
      One(s.limit, b, Called(t, op));
    }
  }

  lemma {:induction false} One(limit: nat, b: Board, r: Record)
    ensures Passes(limit, b, [r]) <==> Allowed(limit, b, r)
    ensures PostAll(b, [r]) == Post(b, r)
  {
    var trace := [r];
    assert trace[1..] == [];
  }

  lemma {:induction false} Two(limit: nat, b: Board, x: Record, y: Record)
    ensures Passes(limit, b, [x, y]) <==> Allowed(limit, b, x) && Allowed(limit, Post(b, x), y)
    ensures PostAll(b, [x, y]) == Post(Post(b, x), y)
  {
    var trace := [x, y];
    assert trace[1..] == [y];
    One(limit, Post(b, x), y);
  }

  /** The accesses of a create before its insertion. */
  lemma {:induction false} ReservingPasses(s: System, b: Board, t: nat)
    requires Agrees(s, b) && Conserved(s) && t in b.pending
    requires s.callers[t].Loading? || s.callers[t].Swapping?
    ensures
      var trace := Observe(s, Advance(t));
      Passes(s.limit, b, trace) && Agrees(Step(s, Advance(t)), PostAll(b, trace))
  {
    assert Stands(s.callers[t], b.pending[t]);
    if s.callers[t].Loading? && s.count >= s.limit {
      HoldersArePending(s, b, t);
      One(s.limit, b, Told(t, Failed(CapacityExceeded(s.limit))));
    }
  }

  lemma {:induction false} MeasuringPasses(s: System, b: Board, t: nat)
    requires Agrees(s, b) && Conserved(s) && t in b.pending && s.callers[t].Measuring?
    ensures
      var trace := Observe(s, Advance(t));
      Passes(s.limit, b, trace) && Agrees(Step(s, Advance(t)), PostAll(b, trace))
  {
    HoldersArePending(s, b, t);
    assert Stands(s.callers[t], b.pending[t]);
    One(s.limit, b, Told(t, Length(s.count)));
  }

  /** An access that meets the entries. */
  lemma {:induction false} MeetingPasses(s: System, b: Board, t: nat)
    requires Agrees(s, b) && t in b.pending && Meets(s.callers[t])
    ensures
      var trace := Observe(s, Advance(t));
      Passes(s.limit, b, trace) && Agrees(Step(s, Advance(t)), PostAll(b, trace))
  {
    var after := Access(s, t).callers[t];
    if after.Finished? {
      Two(s.limit, b, Took(t), Told(t, after.outcome));
    } else {
      One(s.limit, b, Took(t));
    }
  }

  /** Giving a unit back tells the caller what the map said. */
  lemma {:induction false} GivingBackPasses(s: System, b: Board, t: nat)
    requires Agrees(s, b) && t in b.pending && (s.callers[t].Releasing? || s.callers[t].Decrementing?)
    ensures
      var trace := Observe(s, Advance(t));
      Passes(s.limit, b, trace) && Agrees(Step(s, Advance(t)), PostAll(b, trace))
  {
    One(s.limit, b, Told(t, Access(s, t).callers[t].outcome));
  }

  lemma {:induction false} StepPasses(s: System, b: Board, a: Action)
    requires Agrees(s, b) && Conserved(s)
    ensures
      var trace := Observe(s, a);
      Passes(s.limit, b, trace) && Agrees(Step(s, a), PostAll(b, trace))
  {
    match a
    case Begin(t, op) => CallPasses(s, b, t, op);
    case Advance(t) =>
      if t in b.pending {
        if Meets(s.callers[t]) {
          MeetingPasses(s, b, t);
        } else if s.callers[t].Releasing? || s.callers[t].Decrementing? {
          GivingBackPasses(s, b, t);
        } else {
          assert Stands(s.callers[t], b.pending[t]);
          if s.callers[t].Measuring? {
            MeasuringPasses(s, b, t);
          } else {
            ReservingPasses(s, b, t);
          }
        }
      }
  }

  lemma {:induction false} RunPasses(s: System, b: Board, schedule: seq<Action>)
    requires Agrees(s, b) && Conserved(s)
    ensures Passes(s.limit, b, Trace(s, schedule))
    ensures Agrees(Run(s, schedule), PostAll(b, Trace(s, schedule)))
    decreases |schedule|
  {
    if schedule != [] {
      var next, now := Step(s, schedule[0]), Observe(s, schedule[0]);
      StepPasses(s, b, schedule[0]);
      StepConserves(s, schedule[0]);
      LimitIsFixed(s, [schedule[0]]);
      assert Run(next, []) == next && [schedule[0]][1..] == [];
      RunPasses(next, PostAll(b, now), schedule[1..]);
      TraceParts(s.limit, b, now, Trace(next, schedule[1..]));
    }
  }

  const EMPTY: Board := Board(map[], map[])

  /** Every interleaving is linearizable: the referee, who knows only the calls, the moments
      at which operations met the entries and the answers, accepts every answer, and the map
      it keeps is the store's entries. */
  lemma {:induction false} Linearizable(limit: nat, schedule: seq<Action>)
    requires limit < WORD
    ensures
      var trace := Trace(Init(limit), schedule);
      && Passes(limit, EMPTY, trace)
      && PostAll(EMPTY, trace).held == Run(Init(limit), schedule).entries
  {
    RunPasses(Init(limit), EMPTY, schedule);
  }

  // ---------------------------------------------------------------------------
  // What the answers alone say
  // ---------------------------------------------------------------------------

  /** Creates of a key answered `Done`, less deletes of it answered `Done`. */
  function Tally(b: Board, trace: seq<Record>, key: StoreKey): int
    decreases |trace|
  {
    if trace == [] then 0
    else
      (match trace[0]
       case Told(t, Done) =>
         if t !in b.pending then 0
         else (match b.pending[t].op
               case Create(k, _) => if k == key then 1 else 0
               case Delete(k) => if k == key then -1 else 0
               case _ => 0)
       case _ => 0)
      + Tally(Post(b, trace[0]), trace[1..], key)
  }

  /** Operations on the key that have taken effect and not yet been answered. */
  function Untold(b: Board, key: StoreKey): set<nat> {
    set t | t in b.pending && b.pending[t] == Pending(Delete(key), Some(Done))
  }

  function Made(b: Board, key: StoreKey): set<nat> {
    set t | t in b.pending && b.pending[t].answer == Some(Done) && b.pending[t].op.Create? && b.pending[t].op.key == key
  }

  function Live(b: Board, key: StoreKey): int {
    if key in b.held then 1 else 0
  }

  /** Liveness, with what is still to be told. */
  function Credit(b: Board, key: StoreKey): int {
    Live(b, key) + |Untold(b, key)| - |Made(b, key)|
  }

  lemma {:induction false} Toggle(x: set<nat>, y: set<nat>, t: nat)
    requires x - {t} == y - {t}
    ensures |y| - |x| == (if t in y then 1 else 0) - (if t in x then 1 else 0)
  {
    var others := x - {t};
    assert x == if t in x then others + {t} else others;
    assert y == if t in y then others + {t} else others;
  }

  /** A record concerns its own caller only. */
  lemma {:induction false} OthersAsBefore(b: Board, r: Record, key: StoreKey)
    ensures Untold(b, key) - {r.caller} == Untold(Post(b, r), key) - {r.caller}
    ensures Made(b, key) - {r.caller} == Made(Post(b, r), key) - {r.caller}
  {
    var after := Post(b, r);
    forall t | t != r.caller ensures t in after.pending <==> t in b.pending {
    }
    assert forall t :: t != r.caller && t in b.pending ==> after.pending[t] == b.pending[t];
  }

  lemma {:induction false} CreditAfter(limit: nat, b: Board, r: Record, key: StoreKey)
    requires Allowed(limit, b, r)
    ensures Credit(Post(b, r), key) == Credit(b, key) + Tally(b, [r], key)
  {
    var t, after := r.caller, Post(b, r);
    OthersAsBefore(b, r, key);
    Toggle(Untold(b, key), Untold(after, key), t);
    Toggle(Made(b, key), Made(after, key), t);
    match r
    case Called(_, _) => CalledCredit(b, r, key);
    case Took(_) => TookCredit(b, r, key);
    case Told(_, _) => ToldCredit(limit, b, r, key);
  }

  /** The sum of what a record changes for its own caller. */
  function Change(b: Board, r: Record, key: StoreKey): int {
    var t, after := r.caller, Post(b, r);
    Live(after, key) - Live(b, key)
    + (if t in Untold(after, key) then 1 else 0) - (if t in Untold(b, key) then 1 else 0)
    - (if t in Made(after, key) then 1 else 0) + (if t in Made(b, key) then 1 else 0)
  }

  lemma {:induction false} TallyOne(b: Board, r: Record, key: StoreKey)
    ensures !r.Told? ==> Tally(b, [r], key) == 0
    ensures r.Told? && r.caller in b.pending ==>
              var op := b.pending[r.caller].op;
              Tally(b, [r], key)
              == if r.outcome != Done then 0
                 else if op.Create? && op.key == key then 1 else if op.Delete? && op.key == key then -1 else 0
  {
    var trace := [r];
    assert trace[1..] == [] && Tally(Post(b, r), [], key) == 0;
  }

  lemma {:induction false} CalledCredit(b: Board, r: Record, key: StoreKey)
    requires r.Called? && r.caller !in b.pending
    ensures Change(b, r, key) == Tally(b, [r], key)
  {
    TallyOne(b, r, key);
  }

  lemma {:induction false} TookCredit(b: Board, r: Record, key: StoreKey)
    requires r.Took? && r.caller in b.pending && b.pending[r.caller].answer.None?
    ensures Change(b, r, key) == Tally(b, [r], key)
  {
    TallyOne(b, r, key);
  }

  lemma {:induction false} ToldCredit(limit: nat, b: Board, r: Record, key: StoreKey)
    requires r.Told? && Allowed(limit, b, r)
    ensures Change(b, r, key) == Tally(b, [r], key)
  {
    TallyOne(b, r, key);
  }

  lemma {:induction false} CreditOverTrace(limit: nat, b: Board, trace: seq<Record>, key: StoreKey)
    requires Passes(limit, b, trace)
    ensures Credit(PostAll(b, trace), key) == Credit(b, key) + Tally(b, trace, key)
    decreases |trace|
  {
    if trace != [] {
      CreditAfter(limit, b, trace[0], key);
      CreditOverTrace(limit, Post(b, trace[0]), trace[1..], key);
      var one := [trace[0]];
      assert one[1..] == [] && Tally(Post(b, trace[0]), [], key) == 0;
    }
  }

  /** Over any run, the creates of a key told `Done` less the deletes of it told `Done` are
      the key's liveness, and one for each delete that has taken effect untold.  Two creates
      of a key are never both told `Done` without a delete between them. */
  lemma {:induction false} DoneAnswersAlternate(limit: nat, schedule: seq<Action>, key: StoreKey)
    requires limit < WORD
    ensures
      var s, trace := Run(Init(limit), schedule), Trace(Init(limit), schedule);
      Tally(EMPTY, trace, key)
      == (if key in s.entries then 1 else 0) + |Untold(PostAll(EMPTY, trace), key)|
  {
    var s, trace := Run(Init(limit), schedule), Trace(Init(limit), schedule);
    var b := PostAll(EMPTY, trace);
    RunPasses(Init(limit), EMPTY, schedule);
    CreditOverTrace(limit, EMPTY, trace, key);
    assert Credit(EMPTY, key) == 0 by {
      assert Untold(EMPTY, key) == {} && Made(EMPTY, key) == {};
    }
    forall t | t in b.pending ensures t !in Made(b, key) {
      assert Stands(s.callers[t], b.pending[t]);
    }
    assert Made(b, key) == {};
  }

  // ---------------------------------------------------------------------------
  // Progress
  // ---------------------------------------------------------------------------

  function Alone(s: System, t: nat, n: nat): System
    decreases n
  {
    if n == 0 then s else Alone(Step(s, Advance(t)), t, n - 1)
  }

  /** Accesses left to a caller that nobody disturbs. */
  function AccessesLeft(s: System, c: Caller): nat {
    match c
    case Finished(_) => 0
    case Swapping(_, _, current) => if s.count == current then 3 else 5
    case Loading(_, _) => 4
    case Inserting(_, _) => 2
    case Removing(_) => 2
    case _ => 1
  }

  lemma {:induction false} OneNearer(s: System, t: nat)
    requires t in s.callers
    ensures
      var next := Step(s, Advance(t));
      && t in next.callers
      && (!s.callers[t].Finished? ==> AccessesLeft(next, next.callers[t]) < AccessesLeft(s, s.callers[t]))
      && (s.callers[t].Finished? ==> next == s)
  {
  }

  lemma {:induction false} AloneGetsThere(s: System, t: nat, n: nat)
    requires t in s.callers && AccessesLeft(s, s.callers[t]) <= n
    ensures t in Alone(s, t, n).callers && Alone(s, t, n).callers[t].Finished?
    decreases n
  {
    if n > 0 {
      OneNearer(s, t);
      AloneGetsThere(Step(s, Advance(t)), t, n - 1);
    }
  }

  /** Nothing waits on anyone: from any state, a caller left to itself is answered within
      five accesses. */
  lemma {:induction false} AloneIsAnswered(s: System, t: nat)
    requires t in s.callers
    ensures t in Alone(s, t, 5).callers && Alone(s, t, 5).callers[t].Finished?
  {
    AloneGetsThere(s, t, 5);
  }
}
