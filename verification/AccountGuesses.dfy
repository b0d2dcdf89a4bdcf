/** What the account limit really bounds. A throttled attempt is counted too, so the counter of an
    account has no bound; but a throttled attempt does not try the caller's password, and the
    guesses that do are bounded, however attempts overlap. */
module AccountGuesses {
  import opened Wrappers
  import opened Throttle
  import opened LoginProtocol

  /** The failures recorded for an account since its last success. */
  function Streak(guesses: seq<Guess>, u: string): seq<Guess> {
    if guesses == [] then []
    else
      var n := |guesses| - 1;
      var g := guesses[n];
      if g.username != u then Streak(guesses[..n], u)
      else if g.success then []
      else Streak(guesses[..n], u) + [g]
  }

  /** How many of them from `from` on tried the caller's own password. */
  function OwnSince(streak: seq<Guess>, from: nat): nat {
    if streak == [] then 0
    else
      var n := |streak| - 1;
      OwnSince(streak[..n], from) + if streak[n].own && from <= streak[n].now then 1 else 0
  }

  /** The caller's own password was offered, and a wrong guess may still be recorded for the account. */
  predicate Guessing(pc: Pc) {
    (pc.Verifying? && !pc.unmatchable) || (pc.Judged? && pc.own && !pc.success)
  }

  function Guessers(w: World, u: string): set<nat> {
    set id | id in w.attempts && w.attempts[id].username == u && Guessing(w.attempts[id].pc)
  }

  /** L-1+K, where a limit of 0 lets an attempt through like a limit of 1. */
  function GuessCap(p: Policy, k: nat): nat {
    (if p.accountLimit > 0 then p.accountLimit - 1 else 0) + k
  }

  // ----- the invariant

  /** When the latest recorded failure of the account can have been, at the latest. */
  ghost predicate NoneFrom(streak: seq<Guess>, edge: nat) {
    forall g | g in streak :: g.now < edge
  }

  ghost predicate StreakOk(p: Policy, streak: seq<Guess>, f: Option<Failures>, now: nat) {
    match f
    case None => p.window > 0 ==> NoneFrom(streak, now)
    case Some(open) =>
      && open.windowStarted <= now
      && (p.window > 0 ==> NoneFrom(streak, open.windowStarted + p.window))
      && (p.window > 0 ==> OwnSince(streak, open.windowStarted) <= open.count)
  }

  /** Own guesses of a streak in the window `f`, if it is open. */
  function InWindow(p: Policy, streak: seq<Guess>, f: Option<Failures>, now: nat): nat {
    var open := StillOpen(f, p.window, now);
    if open.Some? then OwnSince(streak, open.value.windowStarted) else 0
  }

  /** Own guesses recorded in the open window of the account since its last success. */
  function Guessed(p: Policy, w: World, u: string): nat {
    InWindow(p, Streak(w.guesses, u), EntryOf(w.tables.byAccount, u), w.now)
  }

  ghost predicate GuessesBounded(p: Policy, w: World, u: string, k: nat) {
    && StreakOk(p, Streak(w.guesses, u), EntryOf(w.tables.byAccount, u), w.now)
    && Guessed(p, w, u) + |Guessers(w, u)| <= GuessCap(p, k)
  }

  lemma StreakAppend(guesses: seq<Guess>, g: Guess, u: string)
    ensures Streak(guesses + [g], u) ==
            if g.username != u then Streak(guesses, u) else if g.success then [] else Streak(guesses, u) + [g]
  {
    assert (guesses + [g])[..|guesses|] == guesses;
  }

  lemma OwnAppend(streak: seq<Guess>, g: Guess, from: nat)
    ensures OwnSince(streak + [g], from) == OwnSince(streak, from) + if g.own && from <= g.now then 1 else 0
  {
    assert (streak + [g])[..|streak|] == streak;
  }

  lemma {:induction false} NoneSince(streak: seq<Guess>, from: nat)
    requires NoneFrom(streak, from)
    ensures OwnSince(streak, from) == 0
  {
    if streak != [] {
      var n := |streak| - 1;
      assert streak == streak[..n] + [streak[n]];
      NoneSince(streak[..n], from);
    }
  }

  lemma GuessersStep(p: Policy, w: World, l: Label, u: string)
    requires Step(p, w, l).Some? && !l.Tick?
    ensures var w' := Step(p, w, l).value;
            |Guessers(w', u)| == |Guessers(w, u)| + One(l.id in Guessers(w', u)) - One(l.id in Guessers(w, u))
  {
    StepMovesOnly(p, w, l);
    SizeChange(Guessers(w, u), Guessers(Step(p, w, l).value, u), l.id);
  }

  lemma LapsedHasNone(p: Policy, streak: seq<Guess>, f: Option<Failures>, now: nat)
    requires p.window > 0 && StreakOk(p, streak, f, now) && StillOpen(f, p.window, now).None?
    ensures OwnSince(streak, now) == 0 && NoneFrom(streak, now)
  {
    assert NoneFrom(streak, now);
    NoneSince(streak, now);
  }

  /** One more failure on a streak, in the open window or in one it opens. */
  lemma FailureOnStreak(p: Policy, streak: seq<Guess>, f: Option<Failures>, g: Guess)
    requires StreakOk(p, streak, f, g.now)
    ensures var bumped := Some(Bump(f, p.window, g.now));
            && StreakOk(p, streak + [g], bumped, g.now)
            && InWindow(p, streak + [g], bumped, g.now) <= InWindow(p, streak, f, g.now) + One(g.own)
  {
    OwnAppend(streak, g, Bump(f, p.window, g.now).windowStarted);
    if p.window > 0 && StillOpen(f, p.window, g.now).None? { LapsedHasNone(p, streak, f, g.now); }
  }

  lemma RecordChangesGuessers(p: Policy, w: World, id: nat, signed: bool)
    requires At(w, id).Judged?
    ensures var u, pc, w' := w.attempts[id].username, w.attempts[id].pc, AccountRecorded(p, w, id, signed);
            && |Guessers(w', u)| == |Guessers(w, u)| - One(pc.own && !pc.success)
            && Streak(w'.guesses, u) ==
               if pc.success then [] else Streak(w.guesses, u) + [Guess(u, pc.own, false, w.now)]
  {
    var u, pc, w' := w.attempts[id].username, w.attempts[id].pc, AccountRecorded(p, w, id, signed);
    assert Step(p, w, RecordAccount(id, signed)) == Some(w');
    GuessersStep(p, w, RecordAccount(id, signed), u);
    StreakAppend(w.guesses, Guess(u, pc.own, pc.success, w.now), u);
  }

  lemma RecordKeepsGuesses(p: Policy, w: World, id: nat, signed: bool, u: string, k: nat)
    requires At(w, id).Judged? && w.attempts[id].username == u && GuessesBounded(p, w, u, k)
    ensures GuessesBounded(p, AccountRecorded(p, w, id, signed), u, k)
  {
    var pc := w.attempts[id].pc;
    RecordChangesGuessers(p, w, id, signed);
    if !pc.success {
      FailureOnStreak(p, Streak(w.guesses, u), EntryOf(w.tables.byAccount, u), Guess(u, pc.own, false, w.now));
    }
  }

  lemma CheckKeepsGuesses(p: Policy, w: World, id: nat, u: string, k: nat)
    requires At(w, id).AddressPassed? && w.attempts[id].username == u && GuessesBounded(p, w, u, k)
    requires |Guessers(w, u)| <= k && |Guessers(AccountChecked(p, w, id), u)| <= k
    ensures GuessesBounded(p, AccountChecked(p, w, id), u, k)
  {
    assert Step(p, w, CheckAccount(id)) == Some(AccountChecked(p, w, id));
    GuessersStep(p, w, CheckAccount(id), u);
  }

  lemma OtherStepsKeepStreak(p: Policy, w: World, l: Label, u: string)
    requires Step(p, w, l).Some?
    requires !((l.RecordAccount? || l.CheckAccount?) && w.attempts[l.id].username == u)
    ensures var w' := Step(p, w, l).value;
            && w.now <= w'.now && |Guessers(w', u)| <= |Guessers(w, u)|
            && EntryOf(w'.tables.byAccount, u) == EntryOf(w.tables.byAccount, u)
            && Streak(w'.guesses, u) == Streak(w.guesses, u)
  {
    var w' := Step(p, w, l).value;
    if l.Tick? {
      assert Guessers(w', u) == Guessers(w, u);
    } else {
      if l.RecordAccount? {
        var a := w.attempts[l.id];
        StreakAppend(w.guesses, Guess(a.username, a.pc.own, a.pc.success, w.now), u);
      }
      GuessersStep(p, w, l, u);
    }
  }

  lemma StepKeepsGuesses(p: Policy, w: World, l: Label, u: string, k: nat)
    requires Step(p, w, l).Some? && GuessesBounded(p, w, u, k)
    requires |Guessers(w, u)| <= k && |Guessers(Step(p, w, l).value, u)| <= k
    ensures GuessesBounded(p, Step(p, w, l).value, u, k)
  {
    if l.RecordAccount? && w.attempts[l.id].username == u {
      RecordKeepsGuesses(p, w, l.id, l.signed, u, k);
    } else if l.CheckAccount? && w.attempts[l.id].username == u {
      CheckKeepsGuesses(p, w, l.id, u, k);
    } else {
      OtherStepsKeepStreak(p, w, l, u);
    }
  }

  // ----- the bound

  /** At every point of the run at most `k` attempts on the account are between a passed check and
      their record. */
  ghost predicate GuessesOverlapAtMost(p: Policy, permits: nat, ls: seq<Label>, u: string, k: nat) {
    forall n | 0 <= n <= |ls| ::
      Exec(p, Start(permits), ls[..n]).Some? && |Guessers(Exec(p, Start(permits), ls[..n]).value, u)| <= k
  }

  /** In every run with account limit L and at most K overlapping guesses at an account, the wrong
      guesses recorded in its open window since its last success and those in flight together
      never exceed L-1+K, whatever throttled attempts do to the counter meanwhile. */
  lemma {:induction false} GuessesUnderOverlap(p: Policy, permits: nat, ls: seq<Label>, u: string, k: nat)
    requires GuessesOverlapAtMost(p, permits, ls, u, k)
    ensures Exec(p, Start(permits), ls).Some?
    ensures var w := Exec(p, Start(permits), ls).value;
            && Guessed(p, w, u) + |Guessers(w, u)| <= GuessCap(p, k)
            && GuessesBounded(p, w, u, k)
  {
    assert ls[..|ls|] == ls;
    if ls == [] {
      assert Guessers(Start(permits), u) == {};
    } else {
      var n := |ls| - 1;
      forall m | 0 <= m <= n
        ensures Exec(p, Start(permits), ls[..n][..m]).Some?
        ensures |Guessers(Exec(p, Start(permits), ls[..n][..m]).value, u)| <= k
      {
        assert ls[..n][..m] == ls[..m];
      }
      GuessesUnderOverlap(p, permits, ls[..n], u, k);
      StepKeepsGuesses(p, Exec(p, Start(permits), ls[..n]).value, ls[n], u, k);
    }
  }

  // ----- guesses in any interval one window long

  /** Own guesses of a streak in an interval. */
  function OwnIn(streak: seq<Guess>, from: nat, to: nat): nat {
    if streak == [] then 0
    else
      var n := |streak| - 1;
      OwnIn(streak[..n], from, to) + if streak[n].own && from <= streak[n].now < to then 1 else 0
  }

  /** The window a streak has left open, however long ago it lapsed. */
  function StreakWindow(streak: seq<Guess>, window: nat): Option<Failures> {
    if streak == [] then None
    else Some(Bump(StreakWindow(streak[..|streak| - 1], window), window, streak[|streak| - 1].now))
  }

  /** In clock order, with at most `cap` own guesses in each window as it grew. */
  ghost predicate Capped(streak: seq<Guess>, window: nat, cap: nat) {
    streak != [] ==>
      var n := |streak| - 1;
      && Capped(streak[..n], window, cap)
      && (forall g | g in streak[..n] :: g.now <= streak[n].now)
      && OwnSince(streak, StreakWindow(streak, window).value.windowStarted) <= cap
  }

  lemma {:induction false} NoneIn(streak: seq<Guess>, from: nat, to: nat)
    requires NoneFrom(streak, from)
    ensures OwnIn(streak, from, to) == 0
  {
    if streak != [] {
      var n := |streak| - 1;
      assert streak == streak[..n] + [streak[n]];
      NoneIn(streak[..n], from, to);
    }
  }

  /** How many of the interval's guesses the current window can account for. */
  lemma {:induction false} OwnCount(streak: seq<Guess>, window: nat, cap: nat, from: nat)
    requires Capped(streak, window, cap) && window > 0 && streak != []
    ensures var start, c := StreakWindow(streak, window).value.windowStarted, OwnIn(streak, from, from + window);
            && start <= streak[|streak| - 1].now && NoneFrom(streak, start + window)
            && (start <= from ==> c <= OwnSince(streak, start))
            && (from < start < from + window ==> c <= cap + OwnSince(streak, start))
            && c <= 2 * cap
  {
    var n := |streak| - 1;
    var front, g := streak[..n], streak[n];
    var start := StreakWindow(streak, window).value.windowStarted;
    assert streak == front + [g];
    OwnAppend(front, g, start);
    if front != [] {
      OwnCount(front, window, cap, from);
      if start == g.now && StreakWindow(front, window).value.windowStarted + window <= g.now {
        NoneSince(front, g.now);
        if start <= from { NoneIn(front, from, from + window); }
      }
    }
  }

  /** The streak of an account in a run, and the window its table entry stands for. */
  ghost predicate StreakKept(p: Policy, w: World, u: string, cap: nat) {
    var streak := Streak(w.guesses, u);
    && Capped(streak, p.window, cap)
    && (forall g | g in streak :: g.now <= w.now)
    && StillOpen(EntryOf(w.tables.byAccount, u), p.window, w.now) ==
       StillOpen(StreakWindow(streak, p.window), p.window, w.now)
  }

  lemma RecordKeepsStreak(p: Policy, w: World, id: nat, signed: bool, u: string, cap: nat)
    requires p.window > 0 && At(w, id).Judged? && w.attempts[id].username == u && StreakKept(p, w, u, cap)
    requires Guessed(p, AccountRecorded(p, w, id, signed), u) <= cap
    ensures StreakKept(p, AccountRecorded(p, w, id, signed), u, cap)
  {
    var pc := w.attempts[id].pc;
    RecordChangesGuessers(p, w, id, signed);
    if !pc.success {
      var streak, g := Streak(w.guesses, u), Guess(u, pc.own, false, w.now);
      assert (streak + [g])[..|streak|] == streak;
      BumpDependsOnOpenWindow(EntryOf(w.tables.byAccount, u), StreakWindow(streak, p.window), p.window, w.now);
    }
  }

  lemma StepKeepsStreak(p: Policy, w: World, l: Label, u: string, cap: nat)
    requires p.window > 0 && Step(p, w, l).Some? && StreakKept(p, w, u, cap)
    requires Guessed(p, Step(p, w, l).value, u) <= cap
    ensures StreakKept(p, Step(p, w, l).value, u, cap)
  {
    if l.RecordAccount? && w.attempts[l.id].username == u {
      RecordKeepsStreak(p, w, l.id, l.signed, u, cap);
    } else if !(l.CheckAccount? && w.attempts[l.id].username == u) {
      OtherStepsKeepStreak(p, w, l, u);
    }
  }

  lemma {:induction false} RunKeepsStreak(p: Policy, permits: nat, ls: seq<Label>, u: string, k: nat)
    requires GuessesOverlapAtMost(p, permits, ls, u, k) && p.window > 0
    ensures Exec(p, Start(permits), ls).Some?
    ensures StreakKept(p, Exec(p, Start(permits), ls).value, u, GuessCap(p, k))
  {
    GuessesUnderOverlap(p, permits, ls, u, k);
    if ls != [] {
      var n := |ls| - 1;
      forall m | 0 <= m <= n
        ensures Exec(p, Start(permits), ls[..n][..m]).Some?
        ensures |Guessers(Exec(p, Start(permits), ls[..n][..m]).value, u)| <= k
      {
        assert ls[..n][..m] == ls[..m];
      }
      RunKeepsStreak(p, permits, ls[..n], u, k);
      StepKeepsStreak(p, Exec(p, Start(permits), ls[..n]).value, ls[n], u, GuessCap(p, k));
    }
  }

  lemma {:induction false} NoneInEmpty(streak: seq<Guess>, from: nat)
    ensures OwnIn(streak, from, from) == 0
  {
    if streak != [] { NoneInEmpty(streak[..|streak| - 1], from); }
  }

  lemma {:induction false} SinceIsIn(streak: seq<Guess>, from: nat, to: nat)
    requires NoneFrom(streak, to)
    ensures OwnIn(streak, from, to) == OwnSince(streak, from)
  {
    if streak != [] {
      var n := |streak| - 1;
      assert streak == streak[..n] + [streak[n]];
      SinceIsIn(streak[..n], from, to);
    }
  }

  /** And no interval one window long, wherever it starts, sees more than twice L-1+K wrong guesses
      of the caller's own password with no success after them. */
  lemma GuessesInAnyInterval(p: Policy, permits: nat, ls: seq<Label>, u: string, k: nat, from: nat)
    requires GuessesOverlapAtMost(p, permits, ls, u, k)
    ensures Exec(p, Start(permits), ls).Some?
    ensures OwnIn(Streak(Exec(p, Start(permits), ls).value.guesses, u), from, from + p.window) <= 2 * GuessCap(p, k)
  {
    GuessesUnderOverlap(p, permits, ls, u, k);
    var streak := Streak(Exec(p, Start(permits), ls).value.guesses, u);
    if p.window == 0 {
      NoneInEmpty(streak, from);
    } else if streak != [] {
      RunKeepsStreak(p, permits, ls, u, k);
      OwnCount(streak, p.window, GuessCap(p, k), from);
    }
  }
}
