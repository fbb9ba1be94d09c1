/** Keys and errors of the resource store. */
module StoreTypes {
  datatype StoreKey = StoreKey(namespace: string, id: string) {
    function Text(): string {
      namespace + "/" + id
    }
  }

  datatype StoreError =
    | NotFound(key: StoreKey)
    | AlreadyExists(key: StoreKey)
    | CapacityExceeded(limit: nat)
}

/** The store under concurrency: every atomic access of `create`, `read`, `update`,
    `delete` and `len` is one step, and the steps of any number of callers interleave
    freely.  Nothing is assumed about scheduling. */
module StoreProtocol {
  import opened Basics
  import opened JsonModel
  import opened StoreTypes

  /** The counter is a 64-bit machine word. */
  const WORD: nat := 0x1_0000_0000_0000_0000

  datatype Operation =
    | Create(key: StoreKey, value: Json)
    | Read(key: StoreKey)
    | Update(key: StoreKey, value: Json)
    | Delete(key: StoreKey)
    | Len

  datatype Outcome =
    | Done
    | Failed(error: StoreError)
    | Found(value: Option<Json>)
    | Length(n: nat)

  /** Where a caller stands: the constructor names its next atomic access. */
  datatype Caller =
    | Loading(key: StoreKey, value: Json)
    | Swapping(key: StoreKey, value: Json, current: nat)
    | Inserting(key: StoreKey, value: Json)
    | Releasing(key: StoreKey)
    | Removing(key: StoreKey)
    | Decrementing
    | Reading(key: StoreKey)
    | Updating(key: StoreKey, value: Json)
    | Measuring
    | Finished(outcome: Outcome)
  {
    /** The caller owns one unit of the counter that no entry accounts for. */
    predicate Holds() {
      Inserting? || Releasing? || Decrementing?
    }
  }

  datatype System = System(
    entries: map<StoreKey, Json>,
    count: nat,
    callers: map<nat, Caller>,
    limit: nat)

  datatype Action = Begin(caller: nat, op: Operation) | Advance(caller: nat)

  function Start(op: Operation): Caller {
    match op
    case Create(key, value) => Loading(key, value)
    case Read(key) => Reading(key)
    case Update(key, value) => Updating(key, value)
    case Delete(key) => Removing(key)
    case Len => Measuring
  }

  /** `fetch_sub(1)` wraps. */
  function FetchSub(count: nat): nat {
    (count + WORD - 1) % WORD
  }

  /** One atomic access by `t`. */
  function Access(s: System, t: nat): System
    requires t in s.callers
  {
    match s.callers[t]
    case Loading(key, value) =>
      if s.count >= s.limit
      then s.(callers := s.callers[t := Finished(Failed(CapacityExceeded(s.limit)))])
      else s.(callers := s.callers[t := Swapping(key, value, s.count)])
    case Swapping(key, value, current) =>
      if s.count == current
      then s.(count := current + 1, callers := s.callers[t := Inserting(key, value)])
      else s.(callers := s.callers[t := Loading(key, value)])
    case Inserting(key, value) =>
      if key in s.entries
      then s.(callers := s.callers[t := Releasing(key)])
      else s.(entries := s.entries[key := value], callers := s.callers[t := Finished(Done)])
    case Releasing(key) =>
      s.(count := FetchSub(s.count), callers := s.callers[t := Finished(Failed(AlreadyExists(key)))])
    case Removing(key) =>
      if key in s.entries
      then s.(entries := s.entries - {key}, callers := s.callers[t := Decrementing])
      else s.(callers := s.callers[t := Finished(Failed(NotFound(key)))])
    case Decrementing =>
      s.(count := FetchSub(s.count), callers := s.callers[t := Finished(Done)])
    case Reading(key) =>
      s.(callers := s.callers[t := Finished(Found(if key in s.entries then Some(s.entries[key]) else None))])
    case Updating(key, value) =>
      if key in s.entries
      then s.(entries := s.entries[key := value], callers := s.callers[t := Finished(Done)])
      else s.(callers := s.callers[t := Finished(Failed(NotFound(key)))])
    case Measuring => s.(callers := s.callers[t := Finished(Length(s.count))])
    case Finished(_) => s
  }

  /** A scheduling choice; one that is not enabled changes nothing. */
  function Step(s: System, a: Action): System {
    match a
    case Begin(t, op) =>
      if t in s.callers && !s.callers[t].Finished? then s
      else s.(callers := s.callers[t := Start(op)])
    case Advance(t) => if t in s.callers then Access(s, t) else s
  }

  function Init(limit: nat): System {
    System(map[], 0, map[], limit)
  }

  function Run(s: System, schedule: seq<Action>): System
    decreases |schedule|
  {
    if schedule == [] then s else Run(Step(s, schedule[0]), schedule[1..])
  }

  function Holders(callers: map<nat, Caller>): set<nat> {
    set t | t in callers && callers[t].Holds()
  }

  /** The conservation law, with what the compare-exchange needs to keep it. */
  ghost predicate Conserved(s: System) {
    && s.limit < WORD
    && s.count == |s.entries| + |Holders(s.callers)|
    && s.count <= s.limit
    && (forall t :: t in s.callers && s.callers[t].Swapping? ==> s.callers[t].current < s.limit)
  }

  lemma {:induction false} HoldersAfter(callers: map<nat, Caller>, t: nat, next: Caller)
    ensures
      var before := t in callers && callers[t].Holds();
      |Holders(callers[t := next])|
      == |Holders(callers)| + (if next.Holds() then 1 else 0) - (if before then 1 else 0)
  {
    var others := Holders(callers) - {t};
    assert Holders(callers[t := next]) == if next.Holds() then others + {t} else others;
    assert t in Holders(callers) ==> Holders(callers) == others + {t};
    assert t !in Holders(callers) ==> Holders(callers) == others;
  }

  /** How one access changes the entries: at most one key comes or goes. */
  lemma {:induction false} EntriesChange(s: System, t: nat)
    requires t in s.callers
    ensures
      var c := s.callers[t];
      Access(s, t).entries
      == if (c.Inserting? && c.key !in s.entries) || (c.Updating? && c.key in s.entries) then s.entries[c.key := c.value]
         else if c.Removing? && c.key in s.entries then s.entries - {c.key}
         else s.entries
  {
  }

  lemma {:induction false} EntriesAfter(s: System, t: nat)
    requires t in s.callers
    ensures
      var c := s.callers[t];
      |Access(s, t).entries|
      == |s.entries| + (if c.Inserting? && c.key !in s.entries then 1 else 0)
         - (if c.Removing? && c.key in s.entries then 1 else 0)
  {
    EntriesChange(s, t);
    var c := s.callers[t];
    if c.Inserting? || c.Updating? {
      SizeAfterPut(s.entries, c.key, c.value);
    } else if c.Removing? {
      SizeAfterRemove(s.entries, c.key);
    }
  }

  lemma {:induction false} SizeAfterPut(m: map<StoreKey, Json>, key: StoreKey, value: Json)
    ensures |m[key := value]| == |m| + if key in m then 0 else 1
  {
    assert m[key := value].Keys == m.Keys + {key};
  }

  lemma {:induction false} SizeAfterRemove(m: map<StoreKey, Json>, key: StoreKey)
    ensures |m - {key}| == |m| - if key in m then 1 else 0
  {
    assert (m - {key}).Keys == m.Keys - {key};
  }

  /** The law is kept when the counter moves as the entries and the unit of `t` do. */
  lemma {:induction false} Rebalanced(s: System, s': System, t: nat, next: Caller)
    requires Conserved(s) && s'.limit == s.limit && s'.count <= s.limit
    requires s'.callers == s.callers[t := next] && (next.Swapping? ==> next.current < s.limit)
    requires
      var held := if t in s.callers && s.callers[t].Holds() then 1 else 0;
      s'.count - |s'.entries| == s.count - |s.entries| - held + (if next.Holds() then 1 else 0)
    ensures Conserved(s')
  {
    HoldersAfter(s.callers, t, next);
  }

  /** A caller that owns a unit can give it back without wrapping. */
  lemma {:induction false} UnitIsCounted(s: System, t: nat)
    requires Conserved(s) && t in s.callers && s.callers[t].Holds()
    ensures |s.entries| < s.count && FetchSub(s.count) == s.count - 1
  {
    assert t in Holders(s.callers);
    assert Holders(s.callers) != {};
  }

  lemma {:induction false} ReserveConserves(s: System, t: nat)
    requires Conserved(s) && t in s.callers && (s.callers[t].Loading? || s.callers[t].Swapping?)
    ensures Conserved(Access(s, t))
  {
    var s' := Access(s, t);
    Rebalanced(s, s', t, s'.callers[t]);
  }

  lemma {:induction false} InsertConserves(s: System, t: nat)
    requires Conserved(s) && t in s.callers && s.callers[t].Inserting?
    ensures Conserved(Access(s, t))
  {
    var s' := Access(s, t);
    EntriesAfter(s, t);
    Rebalanced(s, s', t, s'.callers[t]);
  }

  lemma {:induction false} RemoveConserves(s: System, t: nat)
    requires Conserved(s) && t in s.callers && s.callers[t].Removing?
    ensures Conserved(Access(s, t))
  {
    var s' := Access(s, t);
    EntriesAfter(s, t);
    Rebalanced(s, s', t, s'.callers[t]);
  }

  lemma {:induction false} GiveBackConserves(s: System, t: nat)
    requires Conserved(s) && t in s.callers && (s.callers[t].Releasing? || s.callers[t].Decrementing?)
    ensures Conserved(Access(s, t))
  {
    var s' := Access(s, t);
    UnitIsCounted(s, t);
    Rebalanced(s, s', t, s'.callers[t]);
  }

  lemma {:induction false} LookConserves(s: System, t: nat)
    requires Conserved(s) && t in s.callers
    requires s.callers[t].Reading? || s.callers[t].Updating? || s.callers[t].Measuring?
    ensures Conserved(Access(s, t))
  {
    var s' := Access(s, t);
    EntriesAfter(s, t);
    Rebalanced(s, s', t, s'.callers[t]);
  }

  lemma {:induction false} AccessConserves(s: System, t: nat)
    requires Conserved(s) && t in s.callers
    ensures Conserved(Access(s, t))
  {
    var c := s.callers[t];
    if c.Loading? || c.Swapping? {
      ReserveConserves(s, t);
    } else if c.Inserting? {
      InsertConserves(s, t);
    } else if c.Removing? {
      RemoveConserves(s, t);
    } else if c.Releasing? || c.Decrementing? {
      GiveBackConserves(s, t);
    } else if !c.Finished? {
      LookConserves(s, t);
    }
  }

  lemma {:induction false} StepConserves(s: System, a: Action)
    requires Conserved(s)
    ensures Conserved(Step(s, a))
  {
    match a
    case Begin(t, op) =>
      HoldersAfter(s.callers, t, Start(op));
    case Advance(t) =>
      if t in s.callers {
        AccessConserves(s, t);
      }
  }

  /** In every interleaving the counter equals the live entries plus the units held by
      callers between reserving and inserting, between colliding and releasing, or
      between removing and decrementing. */
  lemma {:induction false} RunConserves(s: System, schedule: seq<Action>)
    requires Conserved(s)
    ensures Conserved(Run(s, schedule))
    decreases |schedule|
  {
    if schedule != [] {
      StepConserves(s, schedule[0]);
      RunConserves(Step(s, schedule[0]), schedule[1..]);
    }
  }

  /** Consequences in every reachable state: the cap is never overshot, no `fetch_sub`
      wraps, and a create is refused for capacity exactly when live entries plus held
      units fill the store. */
  lemma {:induction false} Safety(limit: nat, schedule: seq<Action>, t: nat)
    requires limit < WORD
    ensures
      var s := Run(Init(limit), schedule);
      && |s.entries| <= limit
      && (t in s.callers && (s.callers[t].Releasing? || s.callers[t].Decrementing?)
          ==> Step(s, Advance(t)).count == s.count - 1)
      && (t in s.callers && s.callers[t].Loading?
          ==> (Step(s, Advance(t)).callers[t] == Finished(Failed(CapacityExceeded(limit)))
               <==> |s.entries| + |Holders(s.callers)| >= limit))
  {
    RunConserves(Init(limit), schedule);
    LimitIsFixed(Init(limit), schedule);
    ConservedIsSafe(Run(Init(limit), schedule), t);
  }

  lemma {:induction false} ConservedIsSafe(s: System, t: nat)
    requires Conserved(s)
    ensures |s.entries| <= s.limit
    ensures t in s.callers && (s.callers[t].Releasing? || s.callers[t].Decrementing?)
            ==> Access(s, t).count == s.count - 1
    ensures t in s.callers && s.callers[t].Loading?
            ==> (Access(s, t).callers[t] == Finished(Failed(CapacityExceeded(s.limit)))
                 <==> |s.entries| + |Holders(s.callers)| >= s.limit)
  {
    assert t in s.callers && s.callers[t].Holds() ==> t in Holders(s.callers);
    assert t in Holders(s.callers) ==> |Holders(s.callers)| >= 1;
  }

  lemma {:induction false} LimitIsFixed(s: System, schedule: seq<Action>)
    ensures Run(s, schedule).limit == s.limit
    decreases |schedule|
  {
    if schedule != [] {
      LimitIsFixed(Step(s, schedule[0]), schedule[1..]);
    }
  }

  /** With no caller in the middle of a create or a delete, `len` is exact. */
  lemma {:induction false} LenIsExactAtQuiescence(limit: nat, schedule: seq<Action>, t: nat)
    requires limit < WORD
    requires
      var s := Run(Init(limit), schedule);
      t in s.callers && s.callers[t].Measuring?
      && forall u :: u in s.callers ==> !s.callers[u].Holds()
    ensures
      var s := Run(Init(limit), schedule);
      Step(s, Advance(t)).callers[t] == Finished(Length(|s.entries|))
  {
    RunConserves(Init(limit), schedule);
    assert Holders(Run(Init(limit), schedule).callers) == {};
  }

  /** Whether this step is a create of `key` winning, or a delete of it taking effect. */
  predicate Wins(s: System, a: Action, key: StoreKey) {
    && a.Advance? && a.caller in s.callers && s.callers[a.caller].Inserting?
    && s.callers[a.caller].key == key && key !in s.entries
  }

  predicate Removes(s: System, a: Action, key: StoreKey) {
    && a.Advance? && a.caller in s.callers && s.callers[a.caller].Removing?
    && s.callers[a.caller].key == key && key in s.entries
  }

  function Balance(s: System, schedule: seq<Action>, key: StoreKey): int
    decreases |schedule|
  {
    if schedule == [] then 0
    else
      (if Wins(s, schedule[0], key) then 1 else 0)
      - (if Removes(s, schedule[0], key) then 1 else 0)
      + Balance(Step(s, schedule[0]), schedule[1..], key)
  }

  /** Winning creates and effective deletes of one key alternate: over any stretch of any
      run their difference is the change in liveness of the key.  Two creates of a key
      never both win without a delete between them. */
  lemma {:induction false} CreatesAndDeletesAlternate(s: System, schedule: seq<Action>, key: StoreKey)
    ensures
      var live := if key in s.entries then 1 else 0;
      var live' := if key in Run(s, schedule).entries then 1 else 0;
      Balance(s, schedule, key) == live' - live
    decreases |schedule|
  {
    if schedule != [] {
      CreatesAndDeletesAlternate(Step(s, schedule[0]), schedule[1..], key);
    }
  }

  /** A capacity refusal can be spurious: a colliding create still holds its unit, so a
      second caller is turned away from a store with room. */
  lemma {:induction false} SpuriousRefusal(a: StoreKey, b: StoreKey, v: Json) returns (schedule: seq<Action>)
    requires a != b
    ensures
      var s := Run(Init(2), schedule);
      && 1 in s.callers && s.callers[1] == Finished(Failed(CapacityExceeded(2)))
      && |s.entries| == 1 && b !in s.entries
  {
    schedule := Then(2, [], Begin(0, Create(a, v)));
    schedule := Then(2, schedule, Advance(0));
    schedule := Then(2, schedule, Advance(0));
    schedule := Then(2, schedule, Advance(0));
    assert Run(Init(2), schedule) == System(map[a := v], 1, map[0 := Finished(Done)], 2);
    schedule := Then(2, schedule, Begin(0, Create(a, v)));
    schedule := Then(2, schedule, Advance(0));
    schedule := Then(2, schedule, Advance(0));
    schedule := Then(2, schedule, Begin(1, Create(b, v)));
    schedule := Then(2, schedule, Advance(1));
  }

  lemma {:induction false} Then(limit: nat, schedule: seq<Action>, a: Action) returns (longer: seq<Action>)
    ensures longer == schedule + [a]
    ensures Run(Init(limit), longer) == Step(Run(Init(limit), schedule), a)
  {
    longer := schedule + [a];
    RunSnoc(Init(limit), schedule, a);
  }

  lemma {:induction false} RunSnoc(s: System, schedule: seq<Action>, a: Action)
    ensures Run(s, schedule + [a]) == Step(Run(s, schedule), a)
    decreases |schedule|
  {
    if schedule == [] {
      assert Run(Step(s, a), []) == Step(s, a);
    } else {
      assert (schedule + [a])[1..] == schedule[1..] + [a];
      RunSnoc(Step(s, schedule[0]), schedule[1..], a);
    }
  }
}
