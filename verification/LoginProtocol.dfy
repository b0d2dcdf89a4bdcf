/** `POST /login` under any number of overlapping attempts: take a permit, check the throttle,
    verify on the blocking pool, drop the permit, record. The check and the record are separate
    steps, and each touches the two counters one after the other. */
module LoginProtocol {
  import opened Wrappers
  import opened Throttle

  datatype Pc =
    | Admitted                       // holds a permit, nothing checked yet
    | AddressPassed                  // address check passed
    | Verifying(unmatchable: bool)   // verification runs on the blocking pool
    | Detached(unmatchable: bool)    // its handler died, the verification still runs
    | Judged(success: bool, own: bool) // permit dropped, outcome not recorded yet; `own` is !unmatchable
    | HalfRecorded                   // failure recorded for the account, not for the address
    | Ended(status: nat)
    | Gone

  datatype Attempt = Attempt(username: string, address: Option<Address>, pc: Pc)

  /** What was recorded for an account; `own` tells a guess at the password from a throttled
      attempt, which offers a fixed one. */
  datatype Guess = Guess(username: string, own: bool, success: bool, now: nat)

  /** `failures` remembers when each address had a failure recorded, `guesses` what was recorded for
      each account. */
  datatype World = World(now: nat, permits: nat, tables: Tables, attempts: map<nat, Attempt>,
                         failures: seq<(Address, nat)>, guesses: seq<Guess>)

  datatype Label =
    | Tick(elapsed: nat)
    | Arrive(id: nat, username: string, address: Option<Address>)
    | CheckAddress(id: nat)
    | CheckAccount(id: nat)
    | Verify(id: nat, matches: bool)
    | Crash(id: nat)
    | RecordAccount(id: nat, signed: bool)
    | RecordAddress(id: nat)
    | Die(id: nat)

  function Start(permits: nat): World {
    World(0, permits, Tables(map[], map[]), map[], [], [])
  }

  function At(w: World, id: nat): Pc {
    if id in w.attempts then w.attempts[id].pc else Gone
  }

  function Moved(w: World, id: nat, pc: Pc): World
    requires id in w.attempts
  {
    w.(attempts := w.attempts[id := w.attempts[id].(pc := pc)])
  }

  function Released(w: World, id: nat, pc: Pc): World
    requires id in w.attempts
  {
    Moved(w, id, pc).(permits := w.permits + 1)
  }

  function Step(p: Policy, w: World, l: Label): Option<World> {
    match l
    case Tick(elapsed) => Some(w.(now := w.now + elapsed))
    case Arrive(id, username, address) =>
      if id in w.attempts then None
      else if w.permits == 0 then Some(w.(attempts := w.attempts[id := Attempt(username, address, Ended(503))]))
      else Some(w.(permits := w.permits - 1, attempts := w.attempts[id := Attempt(username, address, Admitted)]))
    case CheckAddress(id) => if At(w, id).Admitted? then Some(AddressChecked(p, w, id)) else None
    case CheckAccount(id) => if At(w, id).AddressPassed? then Some(AccountChecked(p, w, id)) else None
    case Verify(id, matches) =>
      // `matches` is the verdict on the password the attempt offers.
      if At(w, id).Verifying? then Some(Released(w, id, Judged(matches, !At(w, id).unmatchable)))
      else if At(w, id).Detached? then Some(Released(w, id, Gone))
      else None
    case Crash(id) =>
      if At(w, id).Verifying? then Some(Released(w, id, Ended(500)))
      else if At(w, id).Detached? then Some(Released(w, id, Gone))
      else None
    case RecordAccount(id, signed) => if At(w, id).Judged? then Some(AccountRecorded(p, w, id, signed)) else None
    case RecordAddress(id) => if At(w, id).HalfRecorded? then Some(AddressRecorded(p, w, id)) else None
    case Die(id) =>
      if At(w, id).Verifying? then Some(Moved(w, id, Detached(At(w, id).unmatchable)))
      else if At(w, id).Judged? then Some(Moved(w, id, Gone))
      else None
  }

  function AddressChecked(p: Policy, w: World, id: nat): World
    requires id in w.attempts
  {
    match w.attempts[id].address
    case None => Moved(w, id, AddressPassed)
    case Some(a) =>
      var pruned := w.(tables := w.tables.(byAddress := Pruned(w.tables.byAddress, a, p.window, w.now)));
      if IsOver(w.tables.byAddress, a, p.addressLimit, p.window, w.now) then Released(pruned, id, Ended(429))
      else Moved(pruned, id, AddressPassed)
  }

  function AccountChecked(p: Policy, w: World, id: nat): World
    requires id in w.attempts
  {
    var u := w.attempts[id].username;
    var pruned := w.(tables := w.tables.(byAccount := Pruned(w.tables.byAccount, u, p.window, w.now)));
    Moved(pruned, id, Verifying(IsOver(w.tables.byAccount, u, p.accountLimit, p.window, w.now)))
  }

  /** A success clears the account, then its token is signed or the login still fails. */
  function AccountRecorded(p: Policy, w: World, id: nat, signed: bool): World
    requires At(w, id).Judged?
  {
    var u, pc := w.attempts[id].username, w.attempts[id].pc;
    var noted := w.(guesses := w.guesses + [Guess(u, pc.own, pc.success, w.now)]);
    if pc.success then
      Moved(noted.(tables := w.tables.(byAccount := w.tables.byAccount - {u})), id, Ended(if signed then 200 else 500))
    else
      Moved(noted.(tables := w.tables.(byAccount := Bumped(w.tables.byAccount, u, p.window, w.now))), id, HalfRecorded)
  }

  function AddressRecorded(p: Policy, w: World, id: nat): World
    requires id in w.attempts
  {
    match w.attempts[id].address
    case None => Moved(w, id, Ended(401))
    case Some(a) =>
      Moved(w.(tables := w.tables.(byAddress := Bumped(w.tables.byAddress, a, p.window, w.now)),
               failures := w.failures + [(a, w.now)]), id, Ended(401))
  }

  function Exec(p: Policy, w: World, ls: seq<Label>): Option<World> {
    if ls == [] then Some(w)
    else
      var n := |ls| - 1;
      match Exec(p, w, ls[..n])
      case None => None
      case Some(w') => Step(p, w', ls[n])
  }

  // ----- permits

  predicate HoldsPermit(pc: Pc) {
    pc.Admitted? || pc.AddressPassed? || pc.Verifying? || pc.Detached?
  }

  function Holders(w: World): set<nat> {
    set id | id in w.attempts && HoldsPermit(w.attempts[id].pc)
  }

  function Verifications(w: World): set<nat> {
    set id | id in w.attempts && (w.attempts[id].pc.Verifying? || w.attempts[id].pc.Detached?)
  }

  /** Two worlds that differ in one attempt at most. */
  ghost predicate MovesOnly(w: World, w': World, id: nat) {
    forall j | j != id ::
      (j in w.attempts <==> j in w'.attempts) && (j in w.attempts ==> w'.attempts[j] == w.attempts[j])
  }

  lemma StepMovesOnly(p: Policy, w: World, l: Label)
    requires Step(p, w, l).Some? && !l.Tick?
    ensures MovesOnly(w, Step(p, w, l).value, l.id)
  {
  }

  function One(b: bool): int { if b then 1 else 0 }

  lemma SizeChange(s: set<nat>, s': set<nat>, id: nat)
    requires forall j | j != id :: j in s <==> j in s'
    ensures |s'| == |s| + One(id in s') - One(id in s)
  {
    var rest := s - {id};
    assert rest == s' - {id};
    assert id in s ==> s == rest + {id};
    assert id !in s ==> s == rest;
    assert id in s' ==> s' == rest + {id};
    assert id !in s' ==> s' == rest;
  }

  lemma StepKeepsPermits(p: Policy, w: World, l: Label)
    requires Step(p, w, l).Some?
    ensures var w' := Step(p, w, l).value; w'.permits + |Holders(w')| == w.permits + |Holders(w)|
  {
    var w' := Step(p, w, l).value;
    if l.Tick? {
      assert Holders(w') == Holders(w);
    } else {
      StepMovesOnly(p, w, l);
      SizeChange(Holders(w), Holders(w'), l.id);
    }
  }

  /** Permits are conserved, whatever crashes or dies, so never more verifications run at once than
      there are permits, and none is ever leaked. */
  lemma {:induction false} PermitsAreConserved(p: Policy, permits: nat, ls: seq<Label>)
    requires Exec(p, Start(permits), ls).Some?
    ensures var w := Exec(p, Start(permits), ls).value;
            w.permits + |Holders(w)| == permits && |Verifications(w)| <= permits
  {
    if ls == [] {
      assert Holders(Start(permits)) == {};
    } else {
      var n := |ls| - 1;
      PermitsAreConserved(p, permits, ls[..n]);
      StepKeepsPermits(p, Exec(p, Start(permits), ls[..n]).value, ls[n]);
    }
    var w := Exec(p, Start(permits), ls).value;
    assert Holders(w) == Verifications(w) + (Holders(w) - Verifications(w));
  }

  // ----- the address limit under overlap

  /** Past the address check, and a failure may still be recorded for the address. */
  predicate Pending(pc: Pc) {
    pc.AddressPassed? || pc.Verifying? || (pc.Judged? && !pc.success) || pc.HalfRecorded?
  }

  function Overlap(w: World, a: Address): set<nat> {
    set id | id in w.attempts && w.attempts[id].address == Some(a) && Pending(w.attempts[id].pc)
  }

  /** Failures the open window of an address counts. */
  function Counted(p: Policy, w: World, a: Address): nat {
    var f := StillOpen(EntryOf(w.tables.byAddress, a), p.window, w.now);
    if f.Some? then f.value.count else 0
  }

  function FailureLog(w: World, a: Address): seq<Event> {
    EventsOf(w.failures, a)
  }

  function EventsOf(failures: seq<(Address, nat)>, a: Address): seq<Event> {
    if failures == [] then []
    else
      var n := |failures| - 1;
      EventsOf(failures[..n], a) + (if failures[n].0 == a then [Failure(failures[n].1)] else [])
  }

  /** L-1+K, where a limit of 0 lets an attempt through like a limit of 1. */
  function Cap(p: Policy, k: nat): nat {
    (if p.addressLimit > 0 then p.addressLimit - 1 else 0) + k
  }

  ghost predicate Bounded(p: Policy, w: World, a: Address, k: nat) {
    && Counted(p, w, a) + |Overlap(w, a)| <= Cap(p, k)
    && (a in w.tables.byAddress ==> w.tables.byAddress[a].count <= Cap(p, k))
  }

  lemma OverlapStep(p: Policy, w: World, l: Label, a: Address)
    requires Step(p, w, l).Some? && !l.Tick?
    ensures var w' := Step(p, w, l).value;
            |Overlap(w', a)| == |Overlap(w, a)| + One(l.id in Overlap(w', a)) - One(l.id in Overlap(w, a))
  {
    StepMovesOnly(p, w, l);
    SizeChange(Overlap(w, a), Overlap(Step(p, w, l).value, a), l.id);
  }

  lemma StepKeepsBound(p: Policy, w: World, l: Label, a: Address, k: nat)
    requires Step(p, w, l).Some? && Bounded(p, w, a, k)
    requires |Overlap(w, a)| <= k && |Overlap(Step(p, w, l).value, a)| <= k
    ensures Bounded(p, Step(p, w, l).value, a, k)
  {
    var w' := Step(p, w, l).value;
    if l.Tick? {
      assert Overlap(w', a) == Overlap(w, a);
    } else {
      OverlapStep(p, w, l, a);
    }
  }

  // ----- what the failure log of an address can hold

  /** A log whose open window is the entry of the table. */
  ghost predicate LogMatches(log: seq<Event>, f: Option<Failures>, window: nat, now: nat, cap: nat) {
    && InOrder(log) && OnlyFailures(log) && CappedAt(log, window, cap)
    && (forall i | 0 <= i < |log| :: log[i].now <= now)
    && StillOpen(f, window, now) == StillOpen(Tally(log, window), window, now)
  }

  ghost predicate LogOk(p: Policy, w: World, a: Address, cap: nat) {
    LogMatches(FailureLog(w, a), EntryOf(w.tables.byAddress, a), p.window, w.now, cap)
  }

  lemma FailureKeepsMatch(log: seq<Event>, f: Option<Failures>, window: nat, now: nat, cap: nat)
    requires LogMatches(log, f, window, now, cap) && Bump(f, window, now).count <= cap
    ensures LogMatches(log + [Failure(now)], Some(Bump(f, window, now)), window, now, cap)
  {
    BumpDependsOnOpenWindow(Tally(log, window), f, window, now);
    TallyAppend(log, Failure(now), window);
    InOrderAppend(log, now);
    CappedAppend(log, Failure(now), window, cap);
  }

  lemma BumpDependsOnOpenWindow(f: Option<Failures>, g: Option<Failures>, window: nat, now: nat)
    requires StillOpen(f, window, now) == StillOpen(g, window, now)
    ensures Bump(f, window, now) == Bump(g, window, now)
  {
  }

  lemma InOrderAppend(log: seq<Event>, now: nat)
    requires InOrder(log) && OnlyFailures(log) && forall i | 0 <= i < |log| :: log[i].now <= now
    ensures var log' := log + [Failure(now)];
            InOrder(log') && OnlyFailures(log') && forall i | 0 <= i < |log'| :: log'[i].now <= now
  {
  }

  lemma RecordKeepsLog(p: Policy, w: World, id: nat, a: Address, cap: nat)
    requires id in w.attempts && w.attempts[id].address == Some(a) && LogOk(p, w, a, cap)
    requires Bump(EntryOf(w.tables.byAddress, a), p.window, w.now).count <= cap
    ensures LogOk(p, AddressRecorded(p, w, id), a, cap)
  {
    EventsOfAppend(w.failures, (a, w.now), a);
    FailureKeepsMatch(FailureLog(w, a), EntryOf(w.tables.byAddress, a), p.window, w.now, cap);
  }

  lemma CappedAppend(log: seq<Event>, e: Event, window: nat, cap: nat)
    requires CappedAt(log, window, cap)
    requires Tally(log + [e], window).Some? ==> Tally(log + [e], window).value.count <= cap
    ensures CappedAt(log + [e], window, cap)
  {
    var log' := log + [e];
    forall n | 0 <= n <= |log'| ensures Tally(log'[..n], window).Some? ==> Tally(log'[..n], window).value.count <= cap {
      if n <= |log| { assert log'[..n] == log[..n]; } else { assert log'[..n] == log'; }
    }
  }

  lemma StepKeepsLog(p: Policy, w: World, l: Label, a: Address, cap: nat)
    requires Step(p, w, l).Some? && LogOk(p, w, a, cap)
    requires var w' := Step(p, w, l).value; a in w'.tables.byAddress ==> w'.tables.byAddress[a].count <= cap
    ensures LogOk(p, Step(p, w, l).value, a, cap)
  {
    if l.RecordAddress? && w.attempts[l.id].address == Some(a) {
      RecordKeepsLog(p, w, l.id, a, cap);
    } else {
      OtherStepsKeepLog(p, w, l, a);
    }
  }

  lemma EventsOfAppend(failures: seq<(Address, nat)>, f: (Address, nat), a: Address)
    ensures EventsOf(failures + [f], a) == EventsOf(failures, a) + (if f.0 == a then [Failure(f.1)] else [])
  {
    assert (failures + [f])[..|failures|] == failures;
  }

  lemma OtherStepsKeepLog(p: Policy, w: World, l: Label, a: Address)
    requires Step(p, w, l).Some? && !(l.RecordAddress? && w.attempts[l.id].address == Some(a))
    ensures var w' := Step(p, w, l).value;
            && w.now <= w'.now && FailureLog(w', a) == FailureLog(w, a)
            && (EntryOf(w'.tables.byAddress, a) == EntryOf(w.tables.byAddress, a)
                || (EntryOf(w'.tables.byAddress, a) == None
                    && StillOpen(EntryOf(w.tables.byAddress, a), p.window, w.now) == None))
  {
    if l.RecordAddress? && w.attempts[l.id].address.Some? {
      EventsOfAppend(w.failures, (w.attempts[l.id].address.value, w.now), a);
    }
  }

  /** At every point of the run at most `k` attempts of the address are between a passed check and
      their record. */
  ghost predicate OverlapsAtMost(p: Policy, permits: nat, ls: seq<Label>, a: Address, k: nat) {
    forall n | 0 <= n <= |ls| ::
      Exec(p, Start(permits), ls[..n]).Some? && |Overlap(Exec(p, Start(permits), ls[..n]).value, a)| <= k
  }

  lemma {:induction false} RunKeepsBound(p: Policy, permits: nat, ls: seq<Label>, a: Address, k: nat)
    requires OverlapsAtMost(p, permits, ls, a, k)
    ensures Exec(p, Start(permits), ls).Some?
    ensures Bounded(p, Exec(p, Start(permits), ls).value, a, k)
    ensures LogOk(p, Exec(p, Start(permits), ls).value, a, Cap(p, k))
  {
    assert ls[..|ls|] == ls;
    if ls == [] {
      assert Overlap(Start(permits), a) == {};
    } else {
      var n := |ls| - 1;
      forall m | 0 <= m <= n
        ensures Exec(p, Start(permits), ls[..n][..m]).Some?
        ensures |Overlap(Exec(p, Start(permits), ls[..n][..m]).value, a)| <= k
      {
        assert ls[..n][..m] == ls[..m];
      }
      RunKeepsBound(p, permits, ls[..n], a, k);
      var w := Exec(p, Start(permits), ls[..n]).value;
      StepKeepsBound(p, w, ls[n], a, k);
      StepKeepsLog(p, w, ls[n], a, Cap(p, k));
    }
  }

  /** The true bound of the address limit L when up to K attempts overlap: the counter and the
      attempts still to be recorded together never exceed L-1+K, so the stored `u32` cannot overflow
      below 2^32; and no interval one window long ever sees more than 2(L-1+K)-1 failures recorded. */
  lemma AddressLimitUnderOverlap(p: Policy, permits: nat, ls: seq<Label>, a: Address, k: nat, from: nat)
    requires OverlapsAtMost(p, permits, ls, a, k)
    ensures Exec(p, Start(permits), ls).Some?
    ensures var w := Exec(p, Start(permits), ls).value;
            var bound := Cap(p, k);
            && Counted(p, w, a) + |Overlap(w, a)| <= bound
            && (a in w.tables.byAddress ==> w.tables.byAddress[a].count <= bound)
            && CountIn(FailureLog(w, a), from, from + p.window) <= IntervalCap(bound)
  {
    RunKeepsBound(p, permits, ls, a, k);
    IntervalBound(FailureLog(Exec(p, Start(permits), ls).value, a), p.window, Cap(p, k), from);
  }

  lemma ExecOneMore(p: Policy, w: World, ls: seq<Label>, l: Label)
    requires Exec(p, w, ls).Some?
    ensures Exec(p, w, ls + [l]) == Step(p, Exec(p, w, ls).value, l)
  {
    assert (ls + [l])[..|ls|] == ls;
  }
}
