/** The in-memory backend under any number of threads, one atomic access at a time.
    Any thread may run between the slot lookup, the lock, the version load, the push and the
    publish of another. The machine is proved to be linearizable: it is simulated, with fixed
    linearization points, by an object on which every call takes effect in one step. */
module MemoryMachine {
  import opened Wrappers
  import opened StoreContract

  type ThreadId = nat

  /** A record: the published projection, the revisions, and who holds the revisions mutex.
      A record is never replaced or removed once it is in its shard, so its user identifies it. */
  datatype Cell = Cell(current: Profile, revisions: seq<Revision>, holder: Option<ThreadId>)

  datatype Pc =
    | Idle
    | Called(op: Op)                          // about to take the shard lock
    | HasSlot(op: Op)                         // holds the record, shard lock released
    | Locked(op: Op)                          // holds the revisions mutex
    | Matched(op: Op, next: Version)          // version test passed, next version computed
    | Pushed(op: Op, applied: Revision)       // revision pushed, projection not yet published
    | Unlocking(op: Op, outcome: Outcome)     // answer decided, mutex still held
    | Returning(op: Op, outcome: Outcome)     // mutex released

  datatype Machine = Machine(cells: map<UserId, Cell>, threads: map<ThreadId, Pc>)

  /** What an observer of a run can be told: calls, returns, and that a thread did something. */
  datatype Label =
    | Call(thread: ThreadId, op: Op)
    | Internal(thread: ThreadId)
    | Return(thread: ThreadId, outcome: Outcome)

  const EMPTY := Machine(map[], map[])

  function PcOf(m: Machine, t: ThreadId): Pc {
    if t in m.threads then m.threads[t] else Idle
  }

  function Goto(m: Machine, t: ThreadId, pc: Pc): Machine {
    m.(threads := m.threads[t := pc])
  }

  function SetCell(m: Machine, u: UserId, c: Cell): Machine {
    m.(cells := m.cells[u := c])
  }

  /** One atomic step; `None` when the label is not enabled (a blocked lock, a wrong answer). */
  function Step(m: Machine, l: Label): Option<Machine> {
    var pc := PcOf(m, l.thread);
    match l
    case Call(t, op) => if pc.Idle? then Some(Goto(m, t, Called(op))) else None
    case Return(t, outcome) =>
      if pc.Returning? && pc.outcome == outcome then Some(Goto(m, t, Idle)) else None
    case Internal(t) =>
      match pc
      case Idle => None
      case Called(op) => Some(Lookup(m, t, op))
      case HasSlot(op) => if op.user in m.cells then UseSlot(m, t, op) else None
      case Locked(op) => if op.user in m.cells then Some(UnderLock(m, t, op)) else None
      case Matched(op, next) =>
        if op.Put? && op.user in m.cells then Some(Push(m, t, op, next)) else None
      case Pushed(op, applied) =>
        if op.user in m.cells then Some(Publish(m, t, op, applied)) else None
      case Unlocking(op, outcome) =>
        if op.user in m.cells then
          Some(Goto(SetCell(m, op.user, m.cells[op.user].(holder := None)), t, Returning(op, outcome)))
        else None
      case Returning(_, _) => None
  }

  /** Under the shard lock: `create` checks and inserts, every other call fetches the record. */
  function Lookup(m: Machine, t: ThreadId, op: Op): Machine {
    match op
    case Create(u, input, now) =>
      if u in m.cells then Goto(m, t, Returning(op, AlreadyThere))
      else
        var first := MakeRevision(INITIAL, input, now);
        var current := Project(u, first);
        Goto(SetCell(m, u, Cell(current, [first], None)), t, Returning(op, Created(current)))
    case Get(u) => if u in m.cells then Goto(m, t, HasSlot(op)) else Goto(m, t, Returning(op, Absent))
    case Put(u, _, _, _) => if u in m.cells then Goto(m, t, HasSlot(op)) else Goto(m, t, Returning(op, Missing))
    case Audit(u) => if u in m.cells then Goto(m, t, HasSlot(op)) else Goto(m, t, Returning(op, Log([])))
  }

  /** A reader loads the projection without a lock; a writer or auditor waits for the mutex. */
  function UseSlot(m: Machine, t: ThreadId, op: Op): Option<Machine>
    requires op.user in m.cells
  {
    var c := m.cells[op.user];
    if op.Get? then Some(Goto(m, t, Returning(op, Found(c.current))))
    else if c.holder.None? then Some(Goto(SetCell(m, op.user, c.(holder := Some(t))), t, Locked(op)))
    else None
  }

  /** An auditor clones the revisions; a writer loads the version and compares it. */
  function UnderLock(m: Machine, t: ThreadId, op: Op): Machine
    requires op.user in m.cells
  {
    var c := m.cells[op.user];
    if op.Put? then
      if c.current.version != op.expected then Goto(m, t, Unlocking(op, Stale(c.current.version)))
      else (
        match CheckedNext(c.current.version)
        case None => Goto(m, t, Unlocking(op, VersionExhausted))
        case Some(next) => Goto(m, t, Matched(op, next))
      )
    else Goto(m, t, Unlocking(op, Log(c.revisions)))
  }

  function Push(m: Machine, t: ThreadId, op: Op, next: Version): Machine
    requires op.Put? && op.user in m.cells
  {
    var c := m.cells[op.user];
    var applied := MakeRevision(next, op.input, op.now);
    Goto(SetCell(m, op.user, c.(revisions := c.revisions + [applied])), t, Pushed(op, applied))
  }

  function Publish(m: Machine, t: ThreadId, op: Op, applied: Revision): Machine
    requires op.user in m.cells
  {
    var current := Project(op.user, applied);
    Goto(SetCell(m, op.user, m.cells[op.user].(current := current)), t, Unlocking(op, Applied(current)))
  }

  /** A whole run; `None` if some label was not enabled when its turn came. */
  function Exec(m: Machine, ls: seq<Label>): Option<Machine>
    decreases |ls|
  {
    if ls == [] then Some(m)
    else match Step(m, ls[0])
      case None => None
      case Some(m') => Exec(m', ls[1..])
  }

  // ----- the atomic object it is compared with

  datatype APc = AIdle | Pending(op: Op) | Done(op: Op, outcome: Outcome)

  datatype Atomic = Atomic(store: Store, threads: map<ThreadId, APc>)

  datatype ALabel =
    | ACall(thread: ThreadId, op: Op)
    | Linearize(thread: ThreadId, op: Op, outcome: Outcome)
    | AReturn(thread: ThreadId, outcome: Outcome)

  const AEMPTY := Atomic(map[], map[])

  function APcOf(a: Atomic, t: ThreadId): APc {
    if t in a.threads then a.threads[t] else AIdle
  }

  /** Between its call and its return, each operation takes effect in one `Linearize` step. */
  ghost function AStep(a: Atomic, l: ALabel): Option<Atomic> {
    var pc := APcOf(a, l.thread);
    match l
    case ACall(t, op) =>
      if pc == AIdle then Some(a.(threads := a.threads[t := Pending(op)])) else None
    case Linearize(t, op, outcome) =>
      if pc == Pending(op) && WellFormed(a.store) && Apply(a.store, op).outcome == outcome then
        Some(Atomic(Apply(a.store, op).store, a.threads[t := Done(op, outcome)]))
      else None
    case AReturn(t, outcome) =>
      if pc.Done? && pc.outcome == outcome then Some(a.(threads := a.threads[t := AIdle])) else None
  }

  ghost function AExec(a: Atomic, ls: seq<ALabel>): Option<Atomic>
    decreases |ls|
  {
    if ls == [] then Some(a)
    else match AStep(a, ls[0])
      case None => None
      case Some(a') => AExec(a', ls[1..])
  }

  // ----- the invariant

  ghost predicate HoldsLock(m: Machine, t: ThreadId, u: UserId) {
    u in m.cells && m.cells[u].holder == Some(t)
  }

  /** Between a push and its publish the log is one entry ahead, and the mutex is held. */
  ghost predicate CellOk(m: Machine, u: UserId)
    requires u in m.cells
  {
    var c := m.cells[u];
    && GoodLog(c.revisions)
    && 1 <= c.current.version <= |c.revisions|
    && c.current == Project(u, c.revisions[c.current.version - 1])
    && (c.current.version == |c.revisions| ||
        (c.current.version + 1 == |c.revisions| && c.holder.Some?
         && PcOf(m, c.holder.value).Pushed? && PcOf(m, c.holder.value).op.user == u))
  }

  ghost predicate ThreadOk(m: Machine, t: ThreadId)
  {
    match PcOf(m, t)
    case Idle => true
    case Called(_) => true
    case HasSlot(op) => !op.Create? && op.user in m.cells
    case Locked(op) => (op.Put? || op.Audit?) && HoldsLock(m, t, op.user)
    case Matched(op, next) =>
      && op.Put? && HoldsLock(m, t, op.user)
      && op.expected == m.cells[op.user].current.version
      && next == op.expected + 1
    case Pushed(op, applied) =>
      && op.Put? && HoldsLock(m, t, op.user)
      && op.expected == m.cells[op.user].current.version
      && op.expected + 1 == |m.cells[op.user].revisions|
      && op.expected + 1 < U64_LIMIT
      && applied == Last(m.cells[op.user].revisions) == MakeRevision(op.expected + 1, op.input, op.now)
    case Unlocking(op, _) => HoldsLock(m, t, op.user)
    case Returning(_, _) => true
  }

  ghost predicate Inv(m: Machine) {
    && (forall u | u in m.cells :: CellOk(m, u))
    && (forall t | t in m.threads :: ThreadOk(m, t))
  }

  // ----- the simulation

  /** Only published revisions are part of the abstract store. */
  ghost function AbsStore(m: Machine): Store
    requires Inv(m)
  {
    map u | u in m.cells :: m.cells[u].revisions[..m.cells[u].current.version]
  }

  function AbsPc(pc: Pc): APc {
    match pc
    case Idle => AIdle
    case Called(op) => Pending(op)
    case HasSlot(op) => Pending(op)
    case Locked(op) => Pending(op)
    case Matched(op, _) => Pending(op)
    case Pushed(op, _) => Pending(op)
    case Unlocking(op, outcome) => Done(op, outcome)
    case Returning(op, outcome) => Done(op, outcome)
  }

  ghost function Abs(m: Machine): Atomic
    requires Inv(m)
  {
    Atomic(AbsStore(m), AbsThreads(m.threads))
  }

  function AbsThreads(threads: map<ThreadId, Pc>): map<ThreadId, APc> {
    map t | t in threads :: AbsPc(threads[t])
  }

  /** The atomic steps one step of the machine stands for. An internal step is the linearization
      point of its thread's call exactly when it decides the answer. */
  function Image(m: Machine, l: Label): seq<ALabel>
    requires Step(m, l).Some?
  {
    match l
    case Call(t, op) => [ACall(t, op)]
    case Return(t, outcome) => [AReturn(t, outcome)]
    case Internal(t) =>
      var before, after := AbsPc(PcOf(m, t)), AbsPc(PcOf(Step(m, l).value, t));
      if before.Pending? && after.Done? then [Linearize(t, after.op, after.outcome)] else []
  }

  /** A thread that moves on without touching a cell keeps the invariant. */
  lemma GotoKeepsInv(m: Machine, t: ThreadId, pc: Pc)
    requires Inv(m) && !PcOf(m, t).Pushed? && ThreadOk(Goto(m, t, pc), t)
    ensures Inv(Goto(m, t, pc))
    ensures AbsStore(Goto(m, t, pc)) == AbsStore(m)
  {
    var m' := Goto(m, t, pc);
    forall u | u in m'.cells ensures CellOk(m', u) { assert CellOk(m, u); }
    forall s | s in m'.threads ensures ThreadOk(m', s) { assert s != t ==> ThreadOk(m, s); }
  }

  /** A change of one cell that no other thread has locked. */
  ghost predicate CellStep(m: Machine, t: ThreadId, u: UserId, c: Cell, pc: Pc) {
    && (u in m.cells ==> m.cells[u].holder in {None, Some(t)})
    && (PcOf(m, t).Pushed? ==> PcOf(m, t).op.user == u)
    && var m' := Goto(SetCell(m, u, c), t, pc);
       CellOk(m', u) && ThreadOk(m', t)
  }

  lemma CellStepKeepsCells(m: Machine, t: ThreadId, u: UserId, c: Cell, pc: Pc, v: UserId)
    requires Inv(m) && CellStep(m, t, u, c, pc) && v in m.cells
    ensures CellOk(Goto(SetCell(m, u, c), t, pc), v)
  {
    assert v != u ==> CellOk(m, v);
  }

  lemma CellStepKeepsThreads(m: Machine, t: ThreadId, u: UserId, c: Cell, pc: Pc, s: ThreadId)
    requires Inv(m) && CellStep(m, t, u, c, pc) && s in m.threads
    ensures ThreadOk(Goto(SetCell(m, u, c), t, pc), s)
  {
    if s != t {
      assert ThreadOk(m, s) && PcOf(Goto(SetCell(m, u, c), t, pc), s) == PcOf(m, s);
    }
  }

  /** So does one that changes a cell no other thread has locked. */
  lemma CellStepKeepsInv(m: Machine, t: ThreadId, u: UserId, c: Cell, pc: Pc)
    requires Inv(m) && CellStep(m, t, u, c, pc)
    ensures Inv(Goto(SetCell(m, u, c), t, pc))
  {
    var m' := Goto(SetCell(m, u, c), t, pc);
    forall v | v in m'.cells ensures CellOk(m', v) { if v in m.cells { CellStepKeepsCells(m, t, u, c, pc, v); } }
    forall s | s in m'.threads ensures ThreadOk(m', s) {
      if s in m.threads { CellStepKeepsThreads(m, t, u, c, pc, s); }
    }
  }

  lemma LookupKeepsInv(m: Machine, t: ThreadId, op: Op)
    requires Inv(m) && PcOf(m, t) == Called(op)
    ensures Inv(Lookup(m, t, op))
  {
    if op.Create? && op.user !in m.cells {
      var first := MakeRevision(INITIAL, op.input, op.now);
      var current := Project(op.user, first);
      CellStepKeepsInv(m, t, op.user, Cell(current, [first], None), Returning(op, Created(current)));
    } else {
      GotoKeepsInv(m, t, PcOf(Lookup(m, t, op), t));
    }
  }

  lemma UseSlotKeepsInv(m: Machine, t: ThreadId, op: Op)
    requires Inv(m) && PcOf(m, t) == HasSlot(op) && op.user in m.cells && UseSlot(m, t, op).Some?
    ensures Inv(UseSlot(m, t, op).value)
  {
    assert ThreadOk(m, t) && CellOk(m, op.user);
    var c := m.cells[op.user];
    if op.Get? {
      GotoKeepsInv(m, t, Returning(op, Found(c.current)));
    } else {
      CellStepKeepsInv(m, t, op.user, c.(holder := Some(t)), Locked(op));
    }
  }

  lemma UnderLockKeepsInv(m: Machine, t: ThreadId, op: Op)
    requires Inv(m) && PcOf(m, t) == Locked(op) && op.user in m.cells
    ensures Inv(UnderLock(m, t, op))
  {
    assert ThreadOk(m, t);
    GotoKeepsInv(m, t, PcOf(UnderLock(m, t, op), t));
  }

  lemma PushKeepsInv(m: Machine, t: ThreadId, op: Op, next: Version)
    requires Inv(m) && PcOf(m, t) == Matched(op, next) && op.Put? && op.user in m.cells
    ensures Inv(Push(m, t, op, next))
  {
    assert ThreadOk(m, t) && CellOk(m, op.user);
    var c, applied := m.cells[op.user], MakeRevision(next, op.input, op.now);
    CellStepKeepsInv(m, t, op.user, c.(revisions := c.revisions + [applied]), Pushed(op, applied));
  }

  lemma PublishKeepsInv(m: Machine, t: ThreadId, op: Op, applied: Revision)
    requires Inv(m) && PcOf(m, t) == Pushed(op, applied) && op.user in m.cells
    ensures Inv(Publish(m, t, op, applied))
  {
    assert ThreadOk(m, t) && CellOk(m, op.user);
    var current := Project(op.user, applied);
    CellStepKeepsInv(m, t, op.user, m.cells[op.user].(current := current), Unlocking(op, Applied(current)));
  }

  lemma UnlockKeepsInv(m: Machine, t: ThreadId, op: Op, outcome: Outcome)
    requires Inv(m) && PcOf(m, t) == Unlocking(op, outcome) && op.user in m.cells
    ensures Inv(Goto(SetCell(m, op.user, m.cells[op.user].(holder := None)), t, Returning(op, outcome)))
  {
    assert ThreadOk(m, t) && CellOk(m, op.user);
    CellStepKeepsInv(m, t, op.user, m.cells[op.user].(holder := None), Returning(op, outcome));
  }

  lemma StepKeepsInv(m: Machine, l: Label)
    requires Inv(m) && Step(m, l).Some?
    ensures Inv(Step(m, l).value)
  {
    var t := l.thread;
    match l
    case Call(_, op) => GotoKeepsInv(m, t, Called(op));
    case Return(_, _) => GotoKeepsInv(m, t, Idle);
    case Internal(_) =>
      match PcOf(m, t)
      case Called(op) => LookupKeepsInv(m, t, op);
      case HasSlot(op) => UseSlotKeepsInv(m, t, op);
      case Locked(op) => UnderLockKeepsInv(m, t, op);
      case Matched(op, next) => PushKeepsInv(m, t, op, next);
      case Pushed(op, applied) => PublishKeepsInv(m, t, op, applied);
      case Unlocking(op, outcome) => UnlockKeepsInv(m, t, op, outcome);
  }

  /** What the abstract store says about one user's published log. */
  lemma Published(m: Machine, u: UserId)
    requires Inv(m)
    ensures WellFormed(AbsStore(m))
    ensures u in m.cells ==>
              && Last(AbsStore(m)[u]).version == m.cells[u].current.version
              && Project(u, Last(AbsStore(m)[u])) == m.cells[u].current
  {
    forall v | v in m.cells ensures GoodLog(AbsStore(m)[v]) { assert CellOk(m, v); }
    if u in m.cells { assert CellOk(m, u); }
  }

  lemma AbsStoreSet(m: Machine, t: ThreadId, u: UserId, c: Cell, pc: Pc)
    requires Inv(m) && Inv(Goto(SetCell(m, u, c), t, pc))
    ensures c.current.version <= |c.revisions|
    ensures AbsStore(Goto(SetCell(m, u, c), t, pc)) == AbsStore(m)[u := c.revisions[..c.current.version]]
  {
    assert CellOk(Goto(SetCell(m, u, c), t, pc), u);
  }

  /** An internal step either decides the answer, as the atomic call would and with the same
      effect on the published logs, or leaves both the answer and the published logs as they are. */
  ghost predicate StepsAtomically(m: Machine, t: ThreadId, m': Machine)
    requires Inv(m) && Inv(m') && WellFormed(AbsStore(m))
  {
    var before, after := AbsPc(PcOf(m, t)), AbsPc(PcOf(m', t));
    if before.Pending? && after.Done? then
      after.op == before.op && Apply(AbsStore(m), before.op) == Effect(AbsStore(m'), after.outcome)
    else after == before && AbsStore(m') == AbsStore(m)
  }

  lemma InsertStep(m: Machine, t: ThreadId, op: Op)
    requires Inv(m) && PcOf(m, t) == Called(op) && op.Create? && op.user !in m.cells
    requires Inv(Lookup(m, t, op)) && WellFormed(AbsStore(m))
    ensures StepsAtomically(m, t, Lookup(m, t, op))
  {
    var first := MakeRevision(INITIAL, op.input, op.now);
    var current := Project(op.user, first);
    assert [first][..1] == [first];
    AbsStoreSet(m, t, op.user, Cell(current, [first], None), Returning(op, Created(current)));
  }

  lemma LookupStep(m: Machine, t: ThreadId, op: Op)
    requires Inv(m) && PcOf(m, t) == Called(op) && !(op.Create? && op.user !in m.cells)
    requires Inv(Lookup(m, t, op)) && WellFormed(AbsStore(m))
    ensures StepsAtomically(m, t, Lookup(m, t, op))
  {
    Published(m, op.user);
    GotoKeepsInv(m, t, PcOf(Lookup(m, t, op), t));
  }

  lemma UnderLockStep(m: Machine, t: ThreadId, op: Op)
    requires Inv(m) && PcOf(m, t) == Locked(op) && op.user in m.cells
    requires Inv(UnderLock(m, t, op)) && WellFormed(AbsStore(m))
    ensures StepsAtomically(m, t, UnderLock(m, t, op))
  {
    assert ThreadOk(m, t) && CellOk(m, op.user);
    GotoKeepsInv(m, t, PcOf(UnderLock(m, t, op), t));
    if op.Put? { CompareStep(m, t, op); } else { CloneStep(m, t, op); }
  }

  lemma CloneStep(m: Machine, t: ThreadId, op: Op)
    requires Inv(m) && PcOf(m, t) == Locked(op) && op.Audit? && op.user in m.cells && WellFormed(AbsStore(m))
    ensures Apply(AbsStore(m), op) == Effect(AbsStore(m), Log(m.cells[op.user].revisions))
  {
    assert ThreadOk(m, t) && CellOk(m, op.user);
    var c := m.cells[op.user];
    assert c.revisions[..c.current.version] == c.revisions;
  }

  lemma CompareStep(m: Machine, t: ThreadId, op: Op)
    requires Inv(m) && PcOf(m, t) == Locked(op) && op.Put? && op.user in m.cells && WellFormed(AbsStore(m))
    ensures var current := m.cells[op.user].current.version;
            && (current != op.expected ==> Apply(AbsStore(m), op) == Effect(AbsStore(m), Stale(current)))
            && (current == op.expected && CheckedNext(current).None? ==>
                  Apply(AbsStore(m), op) == Effect(AbsStore(m), VersionExhausted))
  {
    Published(m, op.user);
  }

  lemma PublishStep(m: Machine, t: ThreadId, op: Op, applied: Revision)
    requires Inv(m) && PcOf(m, t) == Pushed(op, applied) && op.user in m.cells
    requires Inv(Publish(m, t, op, applied)) && WellFormed(AbsStore(m))
    ensures StepsAtomically(m, t, Publish(m, t, op, applied))
  {
    PushedIsNext(m, t, op, applied);
    var current := Project(op.user, applied);
    AbsStoreSet(m, t, op.user, m.cells[op.user].(current := current), Unlocking(op, Applied(current)));
  }

  /** The pushed revision is the one the atomic update appends. */
  lemma PushedIsNext(m: Machine, t: ThreadId, op: Op, applied: Revision)
    requires Inv(m) && PcOf(m, t) == Pushed(op, applied) && op.user in m.cells && WellFormed(AbsStore(m))
    ensures op.Put? && applied.version == |m.cells[op.user].revisions|
    ensures Apply(AbsStore(m), op) ==
            Effect(AbsStore(m)[op.user := m.cells[op.user].revisions[..applied.version]],
                   Applied(Project(op.user, applied)))
  {
    assert ThreadOk(m, t) && CellOk(m, op.user);
    Published(m, op.user);
    var c := m.cells[op.user];
    assert c.revisions[..c.current.version] + [applied] == c.revisions[..applied.version];
  }

  /** Taking the mutex, pushing and releasing the mutex leave the published logs as they are. */
  lemma HiddenStep(m: Machine, t: ThreadId, u: UserId, c: Cell, pc: Pc)
    requires Inv(m) && WellFormed(AbsStore(m)) && Inv(Goto(SetCell(m, u, c), t, pc))
    requires u in m.cells && c.current == m.cells[u].current && m.cells[u].revisions <= c.revisions
    requires AbsPc(pc) == AbsPc(PcOf(m, t))
    ensures StepsAtomically(m, t, Goto(SetCell(m, u, c), t, pc))
  {
    assert CellOk(m, u);
    AbsStoreSet(m, t, u, c, pc);
    assert c.revisions[..c.current.version] == AbsStore(m)[u];
    assert AbsStore(m)[u := AbsStore(m)[u]] == AbsStore(m);
  }

  /** A reader's load of the projection. */
  lemma LoadStep(m: Machine, t: ThreadId, op: Op)
    requires Inv(m) && PcOf(m, t) == HasSlot(op) && op.Get? && op.user in m.cells && WellFormed(AbsStore(m))
    requires Inv(Goto(m, t, Returning(op, Found(m.cells[op.user].current))))
    ensures StepsAtomically(m, t, Goto(m, t, Returning(op, Found(m.cells[op.user].current))))
  {
    Published(m, op.user);
    GotoKeepsInv(m, t, Returning(op, Found(m.cells[op.user].current)));
  }

  lemma InternalStep(m: Machine, t: ThreadId)
    requires Inv(m) && Step(m, Internal(t)).Some?
    requires Inv(Step(m, Internal(t)).value) && WellFormed(AbsStore(m))
    ensures StepsAtomically(m, t, Step(m, Internal(t)).value)
  {
    match PcOf(m, t)
    case Called(op) => if op.Create? && op.user !in m.cells { InsertStep(m, t, op); } else { LookupStep(m, t, op); }
    case HasSlot(op) =>
      if op.Get? {
        LoadStep(m, t, op);
      } else {
        HiddenStep(m, t, op.user, m.cells[op.user].(holder := Some(t)), Locked(op));
      }
    case Locked(op) => UnderLockStep(m, t, op);
    case Pushed(op, applied) => PublishStep(m, t, op, applied);
    case Matched(op, next) =>
      var applied := MakeRevision(next, op.input, op.now);
      var c := m.cells[op.user];
      HiddenStep(m, t, op.user, c.(revisions := c.revisions + [applied]), Pushed(op, applied));
    case Unlocking(op, outcome) =>
      HiddenStep(m, t, op.user, m.cells[op.user].(holder := None), Returning(op, outcome));
  }

  lemma StepMovesOneThread(m: Machine, l: Label)
    requires Step(m, l).Some?
    ensures var t, m' := l.thread, Step(m, l).value;
            && m'.threads == m.threads[t := PcOf(m', t)]
            && AbsThreads(m'.threads) == AbsThreads(m.threads)[t := AbsPc(PcOf(m', t))]
  {
  }

  lemma StepSimulates(m: Machine, l: Label)
    requires Inv(m) && Step(m, l).Some?
    ensures Inv(Step(m, l).value)
    ensures AExec(Abs(m), Image(m, l)) == Some(Abs(Step(m, l).value))
  {
    StepKeepsInv(m, l);
    StepMovesOneThread(m, l);
    Published(m, "");
    if l.Internal? {
      InternalStep(m, l.thread);
      if Image(m, l) == [] {
        assert AbsThreads(m.threads)[l.thread := AbsPc(PcOf(m, l.thread))] == AbsThreads(m.threads);
      } else {
        AExecOne(Abs(m), Image(m, l)[0]);
      }
    } else {
      GotoKeepsInv(m, l.thread, PcOf(Step(m, l).value, l.thread));
      AExecOne(Abs(m), Image(m, l)[0]);
    }
  }

  lemma AExecOne(a: Atomic, l: ALabel)
    ensures AExec(a, [l]) == AStep(a, l)
  {
    assert [l][1..] == [];
  }

  lemma {:induction false} AExecAppend(a: Atomic, xs: seq<ALabel>, ys: seq<ALabel>)
    requires AExec(a, xs).Some?
    ensures AExec(a, xs + ys) == AExec(AExec(a, xs).value, ys)
    decreases |xs|
  {
    if xs == [] {
      assert xs + ys == ys;
    } else {
      assert (xs + ys)[1..] == xs[1..] + ys;
      AExecAppend(AStep(a, xs[0]).value, xs[1..], ys);
    }
  }

  // ----- linearizability

  /** The atomic run a machine run stands for. */
  function Linearization(m: Machine, ls: seq<Label>): seq<ALabel>
    requires Exec(m, ls).Some?
    decreases |ls|
  {
    if ls == [] then [] else Image(m, ls[0]) + Linearization(Step(m, ls[0]).value, ls[1..])
  }

  datatype Event = Invoked(thread: ThreadId, op: Op) | Answered(thread: ThreadId, outcome: Outcome)

  /** What clients see of a run: who called what, who was answered what, in which order. */
  function History(ls: seq<Label>): seq<Event> {
    if ls == [] then []
    else (match ls[0]
          case Call(t, op) => [Invoked(t, op)]
          case Return(t, outcome) => [Answered(t, outcome)]
          case Internal(_) => []) + History(ls[1..])
  }

  function AHistory(ls: seq<ALabel>): seq<Event> {
    if ls == [] then []
    else (match ls[0]
          case ACall(t, op) => [Invoked(t, op)]
          case AReturn(t, outcome) => [Answered(t, outcome)]
          case Linearize(_, _, _) => []) + AHistory(ls[1..])
  }

  lemma {:induction false} AHistoryAppend(xs: seq<ALabel>, ys: seq<ALabel>)
    ensures AHistory(xs + ys) == AHistory(xs) + AHistory(ys)
  {
    if xs == [] {
      assert xs + ys == ys;
    } else {
      assert (xs + ys)[1..] == xs[1..] + ys;
      AHistoryAppend(xs[1..], ys);
    }
  }

  lemma {:induction false} RunSimulates(m: Machine, ls: seq<Label>)
    requires Inv(m) && Exec(m, ls).Some?
    ensures Inv(Exec(m, ls).value)
    ensures AExec(Abs(m), Linearization(m, ls)) == Some(Abs(Exec(m, ls).value))
    ensures AHistory(Linearization(m, ls)) == History(ls)
    decreases |ls|
  {
    if ls != [] {
      var m' := Step(m, ls[0]).value;
      StepSimulates(m, ls[0]);
      RunSimulates(m', ls[1..]);
      AExecAppend(Abs(m), Image(m, ls[0]), Linearization(m', ls[1..]));
      AHistoryAppend(Image(m, ls[0]), Linearization(m', ls[1..]));
    }
  }

  /** The calls of an atomic run in the order they took effect. */
  function Commits(ls: seq<ALabel>): seq<(Op, Outcome)> {
    if ls == [] then []
    else (if ls[0].Linearize? then [(ls[0].op, ls[0].outcome)] else []) + Commits(ls[1..])
  }

  function Ops(commits: seq<(Op, Outcome)>): (ops: seq<Op>)
    ensures |ops| == |commits|
    ensures forall i | 0 <= i < |ops| :: ops[i] == commits[i].0
  {
    seq(|commits|, i requires 0 <= i < |commits| => commits[i].0)
  }

  /** The answers recorded in `commits` are the ones the contract gives when the calls run one
      after another from `s`. */
  ghost predicate SequentiallyCorrect(s: Store, commits: seq<(Op, Outcome)>)
    requires WellFormed(s)
  {
    forall i | 0 <= i < |commits| :: CorrectAt(s, commits, i)
  }

  ghost predicate CorrectAt(s: Store, commits: seq<(Op, Outcome)>, i: nat)
    requires WellFormed(s) && i < |commits|
  {
    commits[i].1 == OutcomeAt(s, Ops(commits), i)
  }

  lemma {:induction false} AtomicRunIsSequential(a: Atomic, ls: seq<ALabel>)
    requires WellFormed(a.store) && AExec(a, ls).Some?
    ensures AExec(a, ls).value.store == After(a.store, Ops(Commits(ls)))
    ensures SequentiallyCorrect(a.store, Commits(ls))
    decreases |ls|
  {
    if ls == [] {
      assert Ops(Commits(ls)) == [];
    } else {
      AtomicRunIsSequential(AStep(a, ls[0]).value, ls[1..]);
      if ls[0].Linearize? {
        OneMoreCommit(a.store, ls[0].op, Commits(ls[1..]));
      } else {
        assert Commits(ls) == Commits(ls[1..]);
      }
    }
  }

  lemma OneMoreCommit(s: Store, op: Op, rest: seq<(Op, Outcome)>)
    requires WellFormed(s) && SequentiallyCorrect(Apply(s, op).store, rest)
    ensures var all := [(op, Apply(s, op).outcome)] + rest;
            && After(s, Ops(all)) == After(Apply(s, op).store, Ops(rest))
            && SequentiallyCorrect(s, all)
  {
    var all := [(op, Apply(s, op).outcome)] + rest;
    OpsCons(op, Apply(s, op).outcome, rest);
    AfterFirst(s, op, Ops(rest));
    forall i | 0 <= i < |all| ensures CorrectAt(s, all, i) {
      CommitCorrect(s, op, rest, i);
    }
  }

  lemma OpsCons(op: Op, outcome: Outcome, rest: seq<(Op, Outcome)>)
    ensures Ops([(op, outcome)] + rest) == [op] + Ops(rest)
  {
  }

  lemma CommitCorrect(s: Store, op: Op, rest: seq<(Op, Outcome)>, i: nat)
    requires WellFormed(s) && SequentiallyCorrect(Apply(s, op).store, rest) && i <= |rest|
    ensures CorrectAt(s, [(op, Apply(s, op).outcome)] + rest, i)
  {
    OpsCons(op, Apply(s, op).outcome, rest);
    if i == 0 {
      assert ([op] + Ops(rest))[..0] == [];
    } else {
      assert CorrectAt(Apply(s, op).store, rest, i - 1);
      OutcomeAfterFirst(s, op, Ops(rest), i - 1);
    }
  }

  lemma OutcomeAfterFirst(s: Store, op: Op, ops: seq<Op>, i: nat)
    requires WellFormed(s) && i < |ops|
    ensures OutcomeAt(s, [op] + ops, i + 1) == OutcomeAt(Apply(s, op).store, ops, i)
  {
    AfterFirst(s, op, ops[..i]);
    assert ([op] + ops)[..i + 1] == [op] + ops[..i];
  }

  lemma {:induction false} AfterFirst(s: Store, op: Op, ops: seq<Op>)
    requires WellFormed(s)
    ensures After(s, [op] + ops) == After(Apply(s, op).store, ops)
  {
    if ops == [] {
      assert ([op] + ops)[..0] == [];
    } else {
      var n := |ops| - 1;
      assert ([op] + ops)[..n + 1] == [op] + ops[..n];
      AfterFirst(s, op, ops[..n]);
    }
  }

  /** Every run of the interleaved store, however its threads are scheduled, looks to its clients
      like a run of the atomic object, and there the calls took effect one at a time, each between
      its call and its return, with the answers of the storage contract. */
  lemma Linearizable(ls: seq<Label>)
    requires Exec(EMPTY, ls).Some?
    ensures var als := Linearization(EMPTY, ls);
            && AHistory(als) == History(ls)
            && AExec(AEMPTY, als).Some?
            && AExec(AEMPTY, als).value.store == After(map[], Ops(Commits(als)))
            && SequentiallyCorrect(map[], Commits(als))
  {
    assert AbsStore(EMPTY) == map[] && Abs(EMPTY) == AEMPTY;
    RunSimulates(EMPTY, ls);
    AtomicRunIsSequential(AEMPTY, Linearization(EMPTY, ls));
  }

  /** While a revision is pushed but not published the log really is one entry ahead of the
      projection, yet no auditor holds or is about to get a log with that entry: the writer keeps
      the mutex, so every log being cloned equals the published one. */
  lemma UnpublishedRevisionIsHidden(ls: seq<Label>, writer: ThreadId, auditor: ThreadId)
    requires Exec(EMPTY, ls).Some?
    requires PcOf(Exec(EMPTY, ls).value, writer).Pushed?
    requires PcOf(Exec(EMPTY, ls).value, auditor).HasSlot? || PcOf(Exec(EMPTY, ls).value, auditor).Locked?
    requires PcOf(Exec(EMPTY, ls).value, auditor).op == Audit(PcOf(Exec(EMPTY, ls).value, writer).op.user)
    ensures var m := Exec(EMPTY, ls).value;
            var u := PcOf(m, writer).op.user;
            && u in m.cells && |m.cells[u].revisions| == m.cells[u].current.version + 1
            && Step(m, Internal(auditor)).None?
  {
    assert AbsStore(EMPTY) == map[] && Abs(EMPTY) == AEMPTY;
    RunSimulates(EMPTY, ls);
    var m := Exec(EMPTY, ls).value;
    assert ThreadOk(m, writer) && ThreadOk(m, auditor);
  }
}
