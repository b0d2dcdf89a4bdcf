/** The two backends side by side: one SQLite store with a failing driver and one in-memory store,
    driven through the same calls. */
module BackendAgreement {
  import opened Wrappers
  import opened StoreContract
  import opened MemoryStore
  import opened SqliteStore

  /** One call, and which driver calls would fail under it. */
  datatype Attempt = Attempt(op: Op, fails: DriverCall -> bool)

  /** What the two backends answered; a call that failed in the driver is not made on the other. */
  datatype Answer = Answer(sqlite: Outcome, memory: Option<Outcome>)

  method CallSqlite(store: SqliteProfiles, a: Attempt) returns (outcome: Outcome)
    requires store.Valid()
    modifies store
    ensures store.Valid()
    ensures outcome == BackendFault <==> Faults(old(store.view), a.op, a.fails)
    ensures outcome == BackendFault ==> store.view == old(store.view)
    ensures outcome != BackendFault ==> Effect(store.view, outcome) == SqlApply(old(store.view), a.op)
  {
    match a.op
    case Create(user, input, now) => outcome := store.Create(user, input, now, a.fails);
    case Get(user) => outcome := store.Get(user, a.fails);
    case Put(user, expected, input, now) => outcome := store.Update(user, expected, input, now, a.fails);
    case Audit(user) => outcome := store.History(user, a.fails);
  }

  method CallMemory(store: InMemoryProfiles, op: Op) returns (outcome: Outcome)
    requires store.Valid()
    modifies store.Repr
    ensures store.Valid() && fresh(store.Repr - old(store.Repr))
    ensures Effect(store.view, outcome) == Apply(old(store.view), op)
  {
    match op
    case Create(user, input, now) => outcome := store.Create(user, input, now);
    case Get(user) => outcome := store.Get(user);
    case Put(user, expected, input, now) => outcome := store.Update(user, expected, input, now);
    case Audit(user) => outcome := store.History(user);
  }

  /** One call that finds the logs `before` on both sides and leaves `after`: faulted exactly if a driver
      call on its path fails, and then without effect; otherwise the same answer from both, and that of
      the contract. */
  ghost predicate Agree(before: Store, a: Attempt, answer: Answer, after: Store)
    requires WellFormed(before)
  {
    && (answer.memory.None? <==> Faults(before, a.op, a.fails))
    && if answer.memory.None? then answer.sqlite == BackendFault && after == before
       else answer.sqlite == answer.memory.value && Effect(after, answer.sqlite) == Apply(before, a.op)
  }

  /** One call on both. */
  method CallBoth(sqlite: SqliteProfiles, memory: InMemoryProfiles, a: Attempt) returns (answer: Answer)
    requires sqlite.Valid() && memory.Valid() && sqlite !in memory.Repr && sqlite.view == memory.view
    requires WithinI64(a.op)
    modifies sqlite, memory.Repr
    ensures sqlite.Valid() && memory.Valid() && sqlite !in memory.Repr && sqlite.view == memory.view
    ensures fresh(memory.Repr - old(memory.Repr)) && Agree(old(memory.view), a, answer, memory.view)
  {
    AgreeExactlyWithinI64(sqlite.view, a.op);
    var outcome := CallSqlite(sqlite, a);
    if outcome.BackendFault? {
      return Answer(outcome, None);
    }
    var other := CallMemory(memory, a.op);
    answer := Answer(outcome, Some(other));
  }

  /** For every sequence of calls that quote versions below 2^63-1, whichever driver calls fail under
      them: the two stores go through the same logs, and at each of them the call agrees. */
  method BackendsAgree(sqlite: SqliteProfiles, memory: InMemoryProfiles, attempts: seq<Attempt>)
    returns (answers: seq<Answer>, ghost logs: seq<Store>)
    requires sqlite.Valid() && memory.Valid() && sqlite !in memory.Repr && sqlite.view == memory.view
    requires forall a | a in attempts :: WithinI64(a.op)
    modifies sqlite, memory.Repr
    ensures sqlite.Valid() && memory.Valid()
    ensures |answers| == |attempts| && |logs| == |attempts| + 1
    ensures logs[0] == old(memory.view) && logs[|attempts|] == sqlite.view == memory.view
    ensures forall i | 0 <= i < |attempts| ::
              WellFormed(logs[i]) && Agree(logs[i], attempts[i], answers[i], logs[i + 1])
  {
    answers, logs := [], [memory.view];
    for i := 0 to |attempts|
      invariant sqlite.Valid() && memory.Valid() && sqlite !in memory.Repr && sqlite.view == memory.view
      invariant fresh(memory.Repr - old(memory.Repr))
      invariant |answers| == i && |logs| == i + 1 && logs[0] == old(memory.view) && logs[i] == memory.view
      invariant forall j | 0 <= j < i :: WellFormed(logs[j]) && Agree(logs[j], attempts[j], answers[j], logs[j + 1])
    {
      assert attempts[i] in attempts;
      var answer := CallBoth(sqlite, memory, attempts[i]);
      answers, logs := answers + [answer], logs + [memory.view];
    }
  }
}
