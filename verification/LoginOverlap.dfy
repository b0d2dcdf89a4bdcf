/** How far overlapping attempts really carry the two limits: the bounds of LoginProtocol and
    AccountGuesses are reached by runs, for every limit and every overlap, with a single permit
    already. */
module LoginOverlap {
  import opened Wrappers
  import opened Throttle
  import opened LoginProtocol
  import opened AccountGuesses

  /** A run so far: attempts `lo` to `next` are judged wrong and not recorded, none after them
      exists. */
  datatype Scene = Scene(ls: seq<Label>, w: World, lo: nat, next: nat)

  /** What all scenes of a run share: attempts on one account, from one address when its limit is
      the subject, from none when the account's is. */
  datatype Setting = Setting(p: Policy, permits: nat, username: string, address: Option<Address>, overlap: nat) {
    function Limit(): nat { if address.Some? then p.addressLimit else p.accountLimit }

    /** L-1+K. */
    function Top(): int { Limit() - 1 + overlap }

    ghost predicate Valid() {
      Limit() > 0 && p.window > 0 && permits > 0 && overlap > 0
    }
  }

  /** The attempts that passed the check and are not recorded yet. */
  function InFlight(c: Setting, w: World): set<nat> {
    if c.address.Some? then Overlap(w, c.address.value) else Guessers(w, c.username)
  }

  function Window(c: Setting, w: World): Option<Failures> {
    var f := if c.address.Some? then EntryOf(w.tables.byAddress, c.address.value)
             else EntryOf(w.tables.byAccount, c.username);
    StillOpen(f, c.p.window, w.now)
  }

  /** The failures recorded in the interval one window long from `from`, of which the present is part. */
  function CountedFrom(c: Setting, w: World, from: nat): nat {
    if c.address.Some? then CountIn(FailureLog(w, c.address.value), from, from + c.p.window)
    else OwnSince(Streak(w.guesses, c.username), from)
  }

  ghost predicate Waiting(c: Setting, w: World, id: nat) {
    && id in w.attempts && w.attempts[id].username == c.username && w.attempts[id].address == c.address
    && w.attempts[id].pc.Judged? && !w.attempts[id].pc.success
    && (c.address.None? ==> w.attempts[id].pc.own)
  }

  predicate InQueue(id: nat, lo: nat, next: nat) {
    lo <= id < next
  }

  /** Exactly the attempts `lo` to `next` are in flight. */
  ghost predicate InFlightAre(c: Setting, w: World, lo: nat, next: nat) {
    forall id :: id in InFlight(c, w) <==> InQueue(id, lo, next)
  }

  /** At most the allowed number are in flight, one step of the run after the other. */
  ghost predicate Within(c: Setting, ls: seq<Label>) {
    && Exec(c.p, Start(c.permits), ls).Some?
    && |InFlight(c, Exec(c.p, Start(c.permits), ls).value)| <= c.overlap
    && (ls != [] ==> Within(c, ls[..|ls| - 1]))
  }

  ghost predicate Poised(c: Setting, s: Scene) {
    && Within(c, s.ls)
    && Exec(c.p, Start(c.permits), s.ls) == Some(s.w)
    && s.w.permits == c.permits
    && s.lo <= s.next <= s.lo + c.overlap
    && (forall id | id in s.w.attempts :: id < s.next)
    && (forall id | s.lo <= id < s.next :: Waiting(c, s.w, id))
    && InFlightAre(c, s.w, s.lo, s.next)
  }

  /** What the recorded failures amount to. */
  ghost predicate Recorded(c: Setting, s: Scene, f: Option<Failures>, now: nat, from: nat, counted: nat) {
    Window(c, s.w) == f && s.w.now == now && CountedFrom(c, s.w, from) == counted
  }

  // ----- one more step

  lemma {:induction false} RangeSize(s: set<nat>, lo: nat, n: nat)
    requires forall id :: id in s <==> lo <= id < lo + n
    ensures |s| == n
  {
    if n == 0 {
      assert s == {};
    } else {
      RangeSize(s - {lo + n - 1}, lo, n - 1);
    }
  }

  lemma {:induction false} WithinAt(c: Setting, ls: seq<Label>, n: nat)
    requires Within(c, ls) && n <= |ls|
    ensures Exec(c.p, Start(c.permits), ls[..n]).Some?
    ensures |InFlight(c, Exec(c.p, Start(c.permits), ls[..n]).value)| <= c.overlap
    decreases |ls|
  {
    if n == |ls| {
      assert ls[..n] == ls;
    } else {
      var front := ls[..|ls| - 1];
      assert front[..n] == ls[..n];
      WithinAt(c, front, n);
    }
  }

  lemma WithinMeansOverlapsAtMost(c: Setting, ls: seq<Label>)
    requires Within(c, ls) && c.address.Some?
    ensures OverlapsAtMost(c.p, c.permits, ls, c.address.value, c.overlap)
  {
    forall n | 0 <= n <= |ls|
      ensures Exec(c.p, Start(c.permits), ls[..n]).Some?
      ensures |Overlap(Exec(c.p, Start(c.permits), ls[..n]).value, c.address.value)| <= c.overlap
    {
      WithinAt(c, ls, n);
    }
  }

  lemma WithinMeansGuessesOverlap(c: Setting, ls: seq<Label>)
    requires Within(c, ls) && c.address.None?
    ensures GuessesOverlapAtMost(c.p, c.permits, ls, c.username, c.overlap)
  {
    forall n | 0 <= n <= |ls|
      ensures Exec(c.p, Start(c.permits), ls[..n]).Some?
      ensures |Guessers(Exec(c.p, Start(c.permits), ls[..n]).value, c.username)| <= c.overlap
    {
      WithinAt(c, ls, n);
    }
  }

  /** A step of one attempt moves the ends of the queue if they move for that attempt alone. */
  lemma QueueMoves(c: Setting, w: World, l: Label, lo: nat, next: nat, lo': nat, next': nat)
    requires Step(c.p, w, l).Some? && !l.Tick? && InFlightAre(c, w, lo, next)
    requires l.id in InFlight(c, Step(c.p, w, l).value) <==> lo' <= l.id < next'
    requires forall id | id != l.id :: InQueue(id, lo, next) <==> InQueue(id, lo', next')
    ensures InFlightAre(c, Step(c.p, w, l).value, lo', next')
  {
    StepMovesOnly(c.p, w, l);
    var w' := Step(c.p, w, l).value;
    forall id ensures id in InFlight(c, w') <==> InQueue(id, lo', next') {
      if id != l.id { assert id in InFlight(c, w') <==> id in InFlight(c, w); }
    }
  }

  /** The run goes on with a step after which the attempts `lo` to `next` overlap. */
  lemma Extend(c: Setting, ls: seq<Label>, w: World, l: Label, lo: nat, next: nat) returns (w': World)
    requires Within(c, ls) && Exec(c.p, Start(c.permits), ls) == Some(w)
    requires Step(c.p, w, l).Some? && lo <= next <= lo + c.overlap
    requires InFlightAre(c, Step(c.p, w, l).value, lo, next)
    ensures Step(c.p, w, l) == Some(w')
    ensures Within(c, ls + [l]) && Exec(c.p, Start(c.permits), ls + [l]) == Some(w')
  {
    w' := Step(c.p, w, l).value;
    ExecOneMore(c.p, Start(c.permits), ls, l);
    RangeSize(InFlight(c, w'), lo, next - lo);
    assert (ls + [l])[..|ls|] == ls;
  }

  /** The same for a step of attempt `l.id`, the other ends given. */
  lemma ExtendOne(c: Setting, ls: seq<Label>, w: World, l: Label, lo: nat, next: nat, lo': nat, next': nat)
    returns (w': World)
    requires Within(c, ls) && Exec(c.p, Start(c.permits), ls) == Some(w)
    requires Step(c.p, w, l).Some? && !l.Tick? && InFlightAre(c, w, lo, next) && lo' <= next' <= lo' + c.overlap
    requires l.id in InFlight(c, Step(c.p, w, l).value) <==> lo' <= l.id < next'
    requires forall id | id != l.id :: InQueue(id, lo, next) <==> InQueue(id, lo', next')
    ensures Step(c.p, w, l) == Some(w') && InFlightAre(c, w', lo', next') && MovesOnly(w, w', l.id)
    ensures Within(c, ls + [l]) && Exec(c.p, Start(c.permits), ls + [l]) == Some(w')
  {
    QueueMoves(c, w, l, lo, next, lo', next');
    StepMovesOnly(c.p, w, l);
    w' := Extend(c, ls, w, l, lo', next');
  }

  // ----- what scenes can do

  lemma Opening(c: Setting, from: nat) returns (s: Scene)
    requires c.Valid()
    ensures Poised(c, s) && s.lo == s.next && Recorded(c, s, None, 0, from, 0)
  {
    s := Scene([], Start(c.permits), 0, 0);
    assert InFlight(c, s.w) == {};
  }

  lemma Wait(c: Setting, s: Scene, elapsed: nat, f: Option<Failures>, now: nat, from: nat, counted: nat)
    returns (s': Scene)
    requires c.Valid() && Poised(c, s) && Recorded(c, s, f, now, from, counted)
    ensures Poised(c, s') && s'.lo == s.lo && s'.next == s.next
    ensures Recorded(c, s', StillOpen(f, c.p.window, now + elapsed), now + elapsed, from, counted)
  {
    assert InFlight(c, s.w.(now := now + elapsed)) == InFlight(c, s.w);
    var w' := Extend(c, s.ls, s.w, Tick(elapsed), s.lo, s.next);
    s' := Scene(s.ls + [Tick(elapsed)], w', s.lo, s.next);
    forall id | s.lo <= id < s.next ensures Waiting(c, w', id) { assert Waiting(c, s.w, id); }
  }

  /** One attempt from its arrival to its verdict, unrecorded; the check lets it pass. It is in flight
      once the limit in question is checked. */
  lemma AttemptSteps(c: Setting, w: World, id: nat) returns (w1: World, w2: World, w3: World, w4: World)
    requires id !in w.attempts && w.permits > 0
    requires var f := Window(c, w); f.Some? ==> f.value.count < c.Limit()
    ensures Step(c.p, w, Arrive(id, c.username, c.address)) == Some(w1) && id !in InFlight(c, w1)
    ensures Step(c.p, w1, CheckAddress(id)) == Some(w2) && (id in InFlight(c, w2) <==> c.address.Some?)
    ensures Step(c.p, w2, CheckAccount(id)) == Some(w3) && id in InFlight(c, w3)
    ensures Step(c.p, w3, Verify(id, false)) == Some(w4) && id in InFlight(c, w4)
    ensures w4.permits == w.permits && w4.now == w.now && Window(c, w4) == Window(c, w)
    ensures w4.failures == w.failures && w4.guesses == w.guesses
    ensures Waiting(c, w4, id) && forall j | j in w4.attempts && j != id :: j in w.attempts
  {
    w1 := Step(c.p, w, Arrive(id, c.username, c.address)).value;
    w2 := Step(c.p, w1, CheckAddress(id)).value;
    w3 := Step(c.p, w2, CheckAccount(id)).value;
    w4 := Step(c.p, w3, Verify(id, false)).value;
  }

  /** One more attempt passes the check, is verified and gives its permit back, unrecorded. */
  lemma Join(c: Setting, s: Scene, f: Option<Failures>, now: nat, from: nat, counted: nat) returns (s': Scene)
    requires c.Valid() && Poised(c, s) && Recorded(c, s, f, now, from, counted)
    requires s.next < s.lo + c.overlap && (f.Some? ==> f.value.count < c.Limit())
    ensures Poised(c, s') && s'.lo == s.lo && s'.next == s.next + 1 && Recorded(c, s', f, now, from, counted)
  {
    var w1, w2, w3, w4 := AttemptSteps(c, s.w, s.next);
    s' := JoinRun(c, s, w1, w2, w3, w4);
  }

  lemma JoinRun(c: Setting, s: Scene, w1: World, w2: World, w3: World, w4: World) returns (s': Scene)
    requires Poised(c, s) && s.next < s.lo + c.overlap && Waiting(c, w4, s.next) && w4.permits == s.w.permits
    requires Step(c.p, s.w, Arrive(s.next, c.username, c.address)) == Some(w1) && s.next !in InFlight(c, w1)
    requires Step(c.p, w1, CheckAddress(s.next)) == Some(w2) && (s.next in InFlight(c, w2) <==> c.address.Some?)
    requires Step(c.p, w2, CheckAccount(s.next)) == Some(w3) && s.next in InFlight(c, w3)
    requires Step(c.p, w3, Verify(s.next, false)) == Some(w4) && s.next in InFlight(c, w4)
    requires forall j | j in w4.attempts && j != s.next :: j in s.w.attempts
    ensures Poised(c, s') && s'.lo == s.lo && s'.next == s.next + 1 && s'.w == w4
  {
    var id, lo, next := s.next, s.lo, s.next + 1;
    var ls2 := AddressRun(c, s, w1, w2);
    assert MovesOnly(s.w, w2, id);
    var v3 := ExtendOne(c, ls2, w2, CheckAccount(id), lo, if c.address.Some? then next else id, lo, next);
    var ls3 := ls2 + [CheckAccount(id)];
    var v4 := ExtendOne(c, ls3, w3, Verify(id, false), lo, next, lo, next);
    s' := Scene(ls3 + [Verify(id, false)], w4, lo, next);
    forall j | lo <= j < next ensures Waiting(c, w4, j) { assert j != id ==> Waiting(c, s.w, j); }
  }

  /** Its arrival and the address check. */
  lemma AddressRun(c: Setting, s: Scene, w1: World, w2: World) returns (ls: seq<Label>)
    requires Poised(c, s) && s.next < s.lo + c.overlap
    requires Step(c.p, s.w, Arrive(s.next, c.username, c.address)) == Some(w1) && s.next !in InFlight(c, w1)
    requires Step(c.p, w1, CheckAddress(s.next)) == Some(w2) && (s.next in InFlight(c, w2) <==> c.address.Some?)
    ensures Within(c, ls) && Exec(c.p, Start(c.permits), ls) == Some(w2) && MovesOnly(s.w, w2, s.next)
    ensures InFlightAre(c, w2, s.lo, if c.address.Some? then s.next + 1 else s.next)
  {
    var id, lo := s.next, s.lo;
    var arrive := Arrive(id, c.username, c.address);
    var v1 := ExtendOne(c, s.ls, s.w, arrive, lo, id, lo, id);
    ls := s.ls + [arrive];
    var v2 := ExtendOne(c, ls, w1, CheckAddress(id), lo, id, lo, if c.address.Some? then id + 1 else id);
    ls := ls + [CheckAddress(id)];
  }

  /** A wrong verdict is recorded, for the account and then for the address. It is no longer in flight
      once the counter in question has it. */
  lemma RecordSteps(c: Setting, w: World, id: nat) returns (w1: World, w2: World)
    requires Waiting(c, w, id) && c.p.window > 0
    ensures Step(c.p, w, RecordAccount(id, true)) == Some(w1) && (id in InFlight(c, w1) <==> c.address.Some?)
    ensures Step(c.p, w1, RecordAddress(id)) == Some(w2) && id !in InFlight(c, w2)
    ensures w2.permits == w.permits && w2.now == w.now && w2.attempts.Keys == w.attempts.Keys
    ensures Window(c, w2) == Some(Bump(Window(c, w), c.p.window, w.now))
    ensures w2.guesses == w.guesses + [Guess(c.username, w.attempts[id].pc.own, false, w.now)]
    ensures c.address.Some? ==> w2.failures == w.failures + [(c.address.value, w.now)]
  {
    w1 := Step(c.p, w, RecordAccount(id, true)).value;
    w2 := Step(c.p, w1, RecordAddress(id)).value;
  }

  lemma RecordCounts(c: Setting, w: World, id: nat, w': World, from: nat)
    requires Waiting(c, w, id) && w.now < from + c.p.window
    requires w'.guesses == w.guesses + [Guess(c.username, w.attempts[id].pc.own, false, w.now)]
    requires c.address.Some? ==> w'.failures == w.failures + [(c.address.value, w.now)]
    ensures CountedFrom(c, w', from) == CountedFrom(c, w, from) + if from <= w.now then 1 else 0
  {
    if c.address.Some? {
      EventsOfAppend(w.failures, (c.address.value, w.now), c.address.value);
      var log := FailureLog(w, c.address.value);
      assert (log + [Failure(w.now)])[..|log|] == log;
    } else {
      var g := Guess(c.username, true, false, w.now);
      StreakAppend(w.guesses, g, c.username);
      OwnAppend(Streak(w.guesses, c.username), g, from);
    }
  }

  /** The oldest attempt in the queue is recorded. */
  lemma Record(c: Setting, s: Scene, f: Option<Failures>, now: nat, from: nat, counted: nat) returns (s': Scene)
    requires c.Valid() && Poised(c, s) && Recorded(c, s, f, now, from, counted) && s.lo < s.next
    requires now < from + c.p.window
    ensures Poised(c, s') && s'.lo == s.lo + 1 && s'.next == s.next
    ensures Recorded(c, s', Some(Bump(f, c.p.window, now)), now, from, counted + if from <= now then 1 else 0)
  {
    assert Waiting(c, s.w, s.lo);
    var w1, w2 := RecordSteps(c, s.w, s.lo);
    RecordCounts(c, s.w, s.lo, w2, from);
    s' := RecordRun(c, s, w1, w2);
  }

  lemma RecordRun(c: Setting, s: Scene, w1: World, w2: World) returns (s': Scene)
    requires Poised(c, s) && s.lo < s.next && w2.permits == s.w.permits && w2.attempts.Keys == s.w.attempts.Keys
    requires Step(c.p, s.w, RecordAccount(s.lo, true)) == Some(w1) && (s.lo in InFlight(c, w1) <==> c.address.Some?)
    requires Step(c.p, w1, RecordAddress(s.lo)) == Some(w2) && s.lo !in InFlight(c, w2)
    ensures Poised(c, s') && s'.lo == s.lo + 1 && s'.next == s.next && s'.w == w2
  {
    var id, next := s.lo, s.next;
    var recorded := if c.address.Some? then id else id + 1;
    var v1 := ExtendOne(c, s.ls, s.w, RecordAccount(id, true), id, next, recorded, next);
    var ls1 := s.ls + [RecordAccount(id, true)];
    var v2 := ExtendOne(c, ls1, w1, RecordAddress(id), recorded, next, id + 1, next);
    s' := Scene(ls1 + [RecordAddress(id)], w2, id + 1, next);
    forall j | id + 1 <= j < next ensures Waiting(c, w2, j) { assert Waiting(c, s.w, j); }
  }

  // ----- a surge

  lemma {:induction false} JoinMany(c: Setting, s: Scene, n: nat, f: Option<Failures>, now: nat, from: nat,
                                    counted: nat)
    returns (s': Scene)
    requires c.Valid() && Poised(c, s) && Recorded(c, s, f, now, from, counted)
    requires s.next + n <= s.lo + c.overlap && (f.Some? ==> f.value.count < c.Limit())
    ensures Poised(c, s') && s'.lo == s.lo && s'.next == s.next + n && Recorded(c, s', f, now, from, counted)
    decreases n
  {
    if n == 0 {
      s' := s;
    } else {
      s' := Join(c, s, f, now, from, counted);
      s' := JoinMany(c, s', n - 1, f, now, from, counted);
    }
  }

  /** In an open window, inside the interval being counted: every record counts in both. */
  lemma {:induction false} RecordMany(c: Setting, s: Scene, n: nat, f: Failures, now: nat, from: nat, counted: nat)
    returns (s': Scene)
    requires c.Valid() && Poised(c, s) && Recorded(c, s, Some(f), now, from, counted)
    requires s.lo + n <= s.next && from <= now < from + c.p.window
    ensures Poised(c, s') && s'.lo == s.lo + n && s'.next == s.next
    ensures Recorded(c, s', Some(Failures(f.count + n, f.windowStarted)), now, from, counted + n)
    decreases n
  {
    if n == 0 {
      s' := s;
    } else {
      assert Open(f, c.p.window, now);
      s' := Record(c, s, Some(f), now, from, counted);
      s' := RecordMany(c, s', n - 1, Failures(f.count + 1, f.windowStarted), now, from, counted + 1);
    }
  }

  /** Attempts one after the other beside those in the queue, up to the limit. */
  lemma {:induction false} UpToLimit(c: Setting, s: Scene, f: Failures, now: nat, from: nat, counted: nat)
    returns (s': Scene)
    requires c.Valid() && Poised(c, s) && Recorded(c, s, Some(f), now, from, counted)
    requires s.next < s.lo + c.overlap && 1 <= f.count <= c.Limit() && from <= now < from + c.p.window
    ensures Poised(c, s') && s'.next - s'.lo == s.next - s.lo
    ensures Recorded(c, s', Some(Failures(c.Limit(), f.windowStarted)), now, from,
                     counted + c.Limit() - f.count)
    decreases c.Limit() - f.count
  {
    if f.count == c.Limit() {
      s' := s;
    } else {
      assert Open(f, c.p.window, now);
      s' := Join(c, s, Some(f), now, from, counted);
      s' := Record(c, s', Some(f), now, from, counted);
      s' := UpToLimit(c, s', Failures(f.count + 1, f.windowStarted), now, from, counted + 1);
    }
  }

  /** With one failure in an open window and K-1 attempts in flight, others fill it up to the limit
      and those in flight carry it to L-1+K. */
  lemma FillUp(c: Setting, s: Scene, start: nat, now: nat, from: nat, counted: nat) returns (s': Scene)
    requires c.Valid() && Poised(c, s) && s.next == s.lo + c.overlap - 1
    requires Recorded(c, s, Some(Failures(1, start)), now, from, counted) && from <= now < from + c.p.window
    ensures Poised(c, s') && s'.lo == s'.next
    ensures Recorded(c, s', Some(Failures(c.Top(), start)), now, from, counted + c.Top() - 1)
  {
    var l := c.Limit();
    s' := UpToLimit(c, s, Failures(1, start), now, from, counted);
    s' := RecordMany(c, s', c.overlap - 1, Failures(l, start), now, from, counted + l - 1);
  }

  /** With no window open, K attempts pass the check; one is recorded and opens a window; after a
      pause the window is filled up. */
  lemma Surge(c: Setting, s: Scene, pause: nat, now: nat, from: nat, counted: nat) returns (s': Scene)
    requires c.Valid() && Poised(c, s) && s.lo == s.next && Recorded(c, s, None, now, from, counted)
    requires pause < c.p.window && from <= now + pause < from + c.p.window
    ensures Poised(c, s') && s'.lo == s'.next
    ensures Recorded(c, s', Some(Failures(c.Top(), now)), now + pause, from,
                     counted + (if from <= now then 1 else 0) + c.Top() - 1)
  {
    var first := counted + if from <= now then 1 else 0;
    s' := JoinMany(c, s, c.overlap, None, now, from, counted);
    s' := Record(c, s', None, now, from, counted);
    s' := Wait(c, s', pause, Some(Failures(1, now)), now, from, first);
    s' := FillUp(c, s', now, now + pause, from, first);
  }

  /** One failure opens a window, the rest of L-1+K fall in its last tick, and as many again follow in
      the next window. */
  lemma TwoSurges(c: Setting) returns (s: Scene)
    requires c.Valid() && c.p.window >= 2
    ensures Poised(c, s)
    ensures s.w.now == c.p.window && CountedFrom(c, s.w, c.p.window - 1) == 2 * c.Top() - 1
  {
    var cap, from := c.Top(), c.p.window - 1;
    s := Opening(c, from);
    s := Surge(c, s, from, 0, from, 0);
    s := Wait(c, s, 1, Some(Failures(cap, 0)), from, from, cap - 1);
    assert !Open(Failures(cap, 0), c.p.window, c.p.window);
    s := Surge(c, s, 0, c.p.window, from, cap - 1);
  }

  // ----- the bounds are attained

  /** For every limit L and every overlap K, with however few permits, a run in which at most K
      attempts of an address overlap stores L-1+K failures for it in one window. */
  lemma LimitIsOvershot(p: Policy, permits: nat, username: string, a: Address, k: nat) returns (ls: seq<Label>)
    requires p.addressLimit > 0 && k > 0 && permits > 0 && p.window > 0
    ensures OverlapsAtMost(p, permits, ls, a, k) && Exec(p, Start(permits), ls).Some?
    ensures EntryOf(Exec(p, Start(permits), ls).value.tables.byAddress, a) == Some(Failures(p.addressLimit - 1 + k, 0))
  {
    var c := Setting(p, permits, username, Some(a), k);
    var s := Opening(c, 0);
    s := Surge(c, s, 0, 0, 0, 0);
    WithinMeansOverlapsAtMost(c, s.ls);
    ls := s.ls;
  }

  /** So the address limit is a limit on recorded failures if and only if attempts do not overlap,
      which no number of permits enforces. */
  lemma LimitHoldsExactlyWithoutOverlap(p: Policy, permits: nat, a: Address, k: nat)
    requires p.addressLimit > 0 && permits > 0 && p.window > 0
    ensures (forall ls | OverlapsAtMost(p, permits, ls, a, k) ::
               && Exec(p, Start(permits), ls).Some?
               && var table := Exec(p, Start(permits), ls).value.tables.byAddress;
                  a in table ==> table[a].count <= p.addressLimit)
            <==> k <= 1
  {
    if k <= 1 {
      forall ls | OverlapsAtMost(p, permits, ls, a, k)
        ensures Exec(p, Start(permits), ls).Some?
        ensures var table := Exec(p, Start(permits), ls).value.tables.byAddress;
                a in table ==> table[a].count <= p.addressLimit
      {
        AddressLimitUnderOverlap(p, permits, ls, a, k, 0);
      }
    } else {
      var ls := LimitIsOvershot(p, permits, "", a, k);
    }
  }

  /** And the bound on an interval one window long is reached as well: one failure opens a window,
      the rest of L-1+K fall in its last tick, and as many again follow in the next window. */
  lemma IntervalBoundIsReached(p: Policy, permits: nat, username: string, a: Address, k: nat)
    returns (ls: seq<Label>)
    requires p.addressLimit > 0 && k > 0 && permits > 0 && p.window >= 2
    ensures OverlapsAtMost(p, permits, ls, a, k) && Exec(p, Start(permits), ls).Some?
    ensures CountIn(FailureLog(Exec(p, Start(permits), ls).value, a), p.window - 1, p.window - 1 + p.window)
            == 2 * (p.addressLimit - 1 + k) - 1
  {
    var c := Setting(p, permits, username, Some(a), k);
    var s := TwoSurges(c);
    WithinMeansOverlapsAtMost(c, s.ls);
    ls := s.ls;
  }

  // ----- the same for accounts

  /** For every account limit L and every overlap K a run with at most K overlapping guesses records
      L-1+K wrong guesses of the caller's own password in one window. */
  lemma GuessLimitIsOvershot(p: Policy, permits: nat, u: string, k: nat) returns (ls: seq<Label>)
    requires p.accountLimit > 0 && k > 0 && permits > 0 && p.window > 0
    ensures GuessesOverlapAtMost(p, permits, ls, u, k) && Exec(p, Start(permits), ls).Some?
    ensures Guessed(p, Exec(p, Start(permits), ls).value, u) == p.accountLimit - 1 + k
  {
    var c := Setting(p, permits, u, None, k);
    var s := Opening(c, 0);
    s := Surge(c, s, 0, 0, 0, 0);
    WithinMeansGuessesOverlap(c, s.ls);
    ls := s.ls;
  }

  /** And twice that less one from the last tick of one window to the first of the next, with no
      success between. */
  lemma GuessesAcrossWindows(p: Policy, permits: nat, u: string, k: nat) returns (ls: seq<Label>)
    requires p.accountLimit > 0 && k > 0 && permits > 0 && p.window >= 2
    ensures GuessesOverlapAtMost(p, permits, ls, u, k) && Exec(p, Start(permits), ls).Some?
    ensures OwnIn(Streak(Exec(p, Start(permits), ls).value.guesses, u), p.window - 1, p.window - 1 + p.window)
            == 2 * (p.accountLimit - 1 + k) - 1
  {
    var c := Setting(p, permits, u, None, k);
    var s := TwoSurges(c);
    WithinMeansGuessesOverlap(c, s.ls);
    RunKeepsStreak(p, permits, s.ls, u, k);
    SinceIsIn(Streak(s.w.guesses, u), p.window - 1, p.window - 1 + p.window);
    ls := s.ls;
  }
}
