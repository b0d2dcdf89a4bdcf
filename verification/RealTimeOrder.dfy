/** What overlapping clients of the in-memory store can rely on: a call takes effect between its
    call and its return, so a call that returns before another is made precedes it, and lock-free
    reads agree with later reads and later audits whatever writes are half done. */
module RealTimeOrder {
  import opened Wrappers
  import opened StoreContract
  import opened MemoryMachine

  /** A thread, what it called, and what it was answered. */
  datatype Answer = Answer(thread: ThreadId, op: Op, outcome: Outcome)

  /** Labels `h` and `i` of a run are the two ends of one call: no other answer of the thread between. */
  ghost predicate CallOf(ls: seq<Label>, h: nat, i: nat, a: Answer) {
    && h < i < |ls| && ls[h] == Call(a.thread, a.op) && ls[i] == Return(a.thread, a.outcome)
    && forall x | h < x < i :: !(ls[x].Return? && ls[x].thread == a.thread)
  }

  // ----- published logs only grow

  lemma StepGrows(m: Machine, l: Label)
    requires Inv(m) && Step(m, l).Some?
    ensures Inv(Step(m, l).value) && WellFormed(AbsStore(m))
    ensures Extends(AbsStore(m), AbsStore(Step(m, l).value))
  {
    StepKeepsInv(m, l);
    Published(m, "");
    if l.Internal? {
      InternalStep(m, l.thread);
      if AbsPc(PcOf(m, l.thread)).Pending? { ApplyExtends(AbsStore(m), AbsPc(PcOf(m, l.thread)).op); }
    } else {
      GotoKeepsInv(m, l.thread, PcOf(Step(m, l).value, l.thread));
    }
  }

  lemma {:induction false} ExecSplit(m: Machine, xs: seq<Label>, ys: seq<Label>)
    requires Exec(m, xs + ys).Some?
    ensures Exec(m, xs).Some? && Exec(Exec(m, xs).value, ys) == Exec(m, xs + ys)
    decreases |xs|
  {
    if xs == [] {
      assert xs + ys == ys;
    } else {
      assert (xs + ys)[1..] == xs[1..] + ys;
      ExecSplit(Step(m, xs[0]).value, xs[1..], ys);
    }
  }

  lemma {:induction false} ExecAppend(m: Machine, ls: seq<Label>, l: Label)
    requires Exec(m, ls).Some?
    ensures Exec(m, ls + [l]) == Step(Exec(m, ls).value, l)
    decreases |ls|
  {
    if ls == [] {
      assert ls + [l] == [l] && [l][1..] == [];
    } else {
      assert (ls + [l])[1..] == ls[1..] + [l];
      ExecAppend(Step(m, ls[0]).value, ls[1..], l);
    }
  }

  // ----- what a run passes through

  /** A run with the machines it passes through and the logs they publish: `ms[n]` and `ss[n]` are
      those after `n` labels. */
  datatype Run = Run(ls: seq<Label>, ms: seq<Machine>, ss: seq<Store>) {
    ghost predicate Visits(n: nat)
      requires n <= |ls| && |ms| == |ss| == |ls| + 1
    {
      && Inv(ms[n]) && ss[n] == AbsStore(ms[n]) && WellFormed(ss[n])
      && (n < |ls| ==> Step(ms[n], ls[n]) == Some(ms[n + 1]))
    }

    ghost predicate Valid() {
      && |ms| == |ss| == |ls| + 1 && ms[0] == EMPTY
      && forall n | 0 <= n <= |ls| :: Visits(n)
    }
  }

  lemma EmptyInv()
    ensures Inv(EMPTY) && AbsStore(EMPTY) == map[]
  {
  }

  lemma {:induction false} RunOf(ls: seq<Label>) returns (r: Run)
    requires Exec(EMPTY, ls).Some?
    ensures r.Valid() && r.ls == ls && Exec(EMPTY, ls) == Some(r.ms[|ls|])
  {
    if ls == [] {
      EmptyInv();
      r := Run([], [EMPTY], [map[]]);
    } else {
      var n := |ls| - 1;
      assert ls == ls[..n] + [ls[n]];
      ExecSplit(EMPTY, ls[..n], [ls[n]]);
      r := RunOf(ls[..n]);
      ExecAppend(EMPTY, ls[..n], ls[n]);
      r := OneMore(r, ls[n]);
    }
  }

  lemma OneMore(r: Run, l: Label) returns (r': Run)
    requires r.Valid() && Step(r.ms[|r.ls|], l).Some?
    ensures r'.Valid() && r'.ls == r.ls + [l] && r'.ms[|r.ls| + 1] == Step(r.ms[|r.ls|], l).value
  {
    var m := Step(r.ms[|r.ls|], l).value;
    assert r.Visits(|r.ls|);
    StepKeepsInv(r.ms[|r.ls|], l);
    Published(m, "");
    r' := Run(r.ls + [l], r.ms + [m], r.ss + [AbsStore(m)]);
    forall k | 0 <= k <= |r'.ls| ensures r'.Visits(k) {
      if k <= |r.ls| { assert r.Visits(k); }
    }
  }

  lemma {:induction false} RunReaches(r: Run, n: nat)
    requires r.Valid() && n <= |r.ls|
    ensures Exec(EMPTY, r.ls[..n]) == Some(r.ms[n])
  {
    if n > 0 {
      RunReaches(r, n - 1);
      assert r.Visits(n - 1);
      assert r.ls[..n] == r.ls[..n - 1] + [r.ls[n - 1]];
      ExecAppend(EMPTY, r.ls[..n - 1], r.ls[n - 1]);
    }
  }

  /** Everything published after `n` labels is still there after `k`. */
  lemma {:induction false} LogsGrow(r: Run, n: nat, k: nat)
    requires r.Valid() && n <= k <= |r.ls|
    ensures Extends(r.ss[n], r.ss[k])
  {
    if n < k {
      LogsGrow(r, n, k - 1);
      LogsGrowOnce(r, k - 1);
      ExtendsTransitive(r.ss[n], r.ss[k - 1], r.ss[k]);
    }
  }

  lemma LogsGrowOnce(r: Run, n: nat)
    requires r.Valid() && n < |r.ls|
    ensures Extends(r.ss[n], r.ss[n + 1])
  {
    assert r.Visits(n) && r.Visits(n + 1);
    StepGrows(r.ms[n], r.ls[n]);
  }

  // ----- one call

  /** Label `n` is the step that decides the answer of a call. */
  ghost predicate Decides(r: Run, n: nat, a: Answer) {
    && n < |r.ls| && |r.ms| == |r.ls| + 1 && r.ls[n] == Internal(a.thread)
    && AbsPc(PcOf(r.ms[n], a.thread)) == Pending(a.op)
    && AbsPc(PcOf(r.ms[n + 1], a.thread)) == Done(a.op, a.outcome)
  }

  /** A call made at label `h` is still to be decided, or has been at a label since. */
  ghost predicate UnderWay(r: Run, h: nat, k: nat, t: ThreadId, op: Op)
    requires k < |r.ms|
  {
    match AbsPc(PcOf(r.ms[k], t))
    case AIdle => false
    case Pending(now) => now == op
    case Done(now, outcome) => now == op && exists n | h < n < k :: Decides(r, n, Answer(t, op, outcome))
  }

  /** A thread's own step leaves its call where it is or decides it. */
  lemma OwnStep(m: Machine, t: ThreadId)
    requires Inv(m) && Step(m, Internal(t)).Some? && !AbsPc(PcOf(m, t)).AIdle?
    ensures var before, after := AbsPc(PcOf(m, t)), AbsPc(PcOf(Step(m, Internal(t)).value, t));
            after == before || (before.Pending? && after.Done? && after.op == before.op)
  {
    StepKeepsInv(m, Internal(t));
    Published(m, "");
    InternalStep(m, t);
  }

  /** Any other step leaves it where it is. */
  lemma OtherStep(m: Machine, l: Label, t: ThreadId)
    requires Step(m, l).Some? && l.thread != t
    ensures PcOf(Step(m, l).value, t) == PcOf(m, t)
  {
    StepMovesOneThread(m, l);
  }

  lemma NoSecondCall(m: Machine, l: Label)
    requires Step(m, l).Some? && l.Call?
    ensures AbsPc(PcOf(m, l.thread)).AIdle?
  {
  }

  lemma StepKeepsUnderWay(r: Run, h: nat, k: nat, t: ThreadId, op: Op)
    requires r.Valid() && h < k < |r.ls| && UnderWay(r, h, k, t, op)
    requires !(r.ls[k].Return? && r.ls[k].thread == t)
    ensures UnderWay(r, h, k + 1, t, op)
  {
    assert r.Visits(k);
    if r.ls[k].thread != t {
      OtherStep(r.ms[k], r.ls[k], t);
    } else if r.ls[k].Call? {
      NoSecondCall(r.ms[k], r.ls[k]);
    } else {
      OwnStep(r.ms[k], t);
      if AbsPc(PcOf(r.ms[k], t)).Pending? && AbsPc(PcOf(r.ms[k + 1], t)).Done? {
        assert Decides(r, k, Answer(t, op, AbsPc(PcOf(r.ms[k + 1], t)).outcome));
      }
    }
  }

  lemma {:induction false} CallIsDecided(r: Run, h: nat, k: nat, t: ThreadId, op: Op)
    requires r.Valid() && h < k <= |r.ls| && r.ls[h] == Call(t, op)
    requires forall x | h < x < k :: !(r.ls[x].Return? && r.ls[x].thread == t)
    ensures UnderWay(r, h, k, t, op)
  {
    if k > h + 1 {
      CallIsDecided(r, h, k - 1, t, op);
      StepKeepsUnderWay(r, h, k - 1, t, op);
    } else {
      assert r.Visits(h);
    }
  }

  lemma ReturnIsDecided(r: Run, h: nat, i: nat, a: Answer) returns (n: nat)
    requires r.Valid() && CallOf(r.ls, h, i, a)
    ensures h < n < i && Decides(r, n, a)
  {
    CallIsDecided(r, h, i, a.thread, a.op);
    assert r.Visits(i);
    n :| h < n < i && Decides(r, n, a);
  }

  // ----- where a decision is in the linearization

  lemma {:induction false} LinearizationSplit(m: Machine, xs: seq<Label>, ys: seq<Label>)
    requires Exec(m, xs + ys).Some?
    ensures Exec(m, xs).Some? && Exec(Exec(m, xs).value, ys).Some?
    ensures Linearization(m, xs + ys) == Linearization(m, xs) + Linearization(Exec(m, xs).value, ys)
    decreases |xs|
  {
    ExecSplit(m, xs, ys);
    if xs == [] {
      assert xs + ys == ys;
    } else {
      assert (xs + ys)[1..] == xs[1..] + ys;
      LinearizationSplit(Step(m, xs[0]).value, xs[1..], ys);
    }
  }

  lemma {:induction false} CommitsAppend(xs: seq<ALabel>, ys: seq<ALabel>)
    ensures Commits(xs + ys) == Commits(xs) + Commits(ys)
  {
    if xs == [] {
      assert xs + ys == ys;
    } else {
      assert (xs + ys)[1..] == xs[1..] + ys;
      CommitsAppend(xs[1..], ys);
    }
  }

  /** How many calls have taken effect when `n` labels have run. */
  ghost function CommitsBefore(ls: seq<Label>, n: nat): nat
    requires n <= |ls| && Exec(EMPTY, ls[..n]).Some?
  {
    |Commits(Linearization(EMPTY, ls[..n]))|
  }

  lemma CommitsSplit(ls: seq<Label>, n: nat)
    requires Exec(EMPTY, ls).Some? && n <= |ls|
    ensures Exec(EMPTY, ls[..n]).Some? && Exec(Exec(EMPTY, ls[..n]).value, ls[n..]).Some?
    ensures Commits(Linearization(EMPTY, ls)) ==
            Commits(Linearization(EMPTY, ls[..n])) + Commits(Linearization(Exec(EMPTY, ls[..n]).value, ls[n..]))
  {
    assert ls == ls[..n] + ls[n..];
    LinearizationSplit(EMPTY, ls[..n], ls[n..]);
    CommitsAppend(Linearization(EMPTY, ls[..n]), Linearization(Exec(EMPTY, ls[..n]).value, ls[n..]));
  }

  /** The linearization has an answer as its commit `c`. */
  ghost predicate CommitAt(ls: seq<Label>, c: nat, a: Answer)
    requires Exec(EMPTY, ls).Some?
  {
    var commits := Commits(Linearization(EMPTY, ls));
    c < |commits| && commits[c] == (a.op, a.outcome)
  }

  /** The answer decided at label `n` is the next commit. */
  lemma DecidedIsCommitted(r: Run, n: nat, a: Answer)
    requires r.Valid() && Exec(EMPTY, r.ls).Some? && Decides(r, n, a)
    ensures Exec(EMPTY, r.ls[..n]).Some? && CommitAt(r.ls, CommitsBefore(r.ls, n), a)
  {
    RunReaches(r, n);
    CommitsSplit(r.ls, n);
    assert r.Visits(n);
    NextCommit(r.ms[n], r.ls[n..], a);
  }

  lemma NextCommit(m: Machine, ls: seq<Label>, a: Answer)
    requires Exec(m, ls).Some? && ls != [] && ls[0] == Internal(a.thread)
    requires AbsPc(PcOf(m, a.thread)) == Pending(a.op)
    requires AbsPc(PcOf(Step(m, ls[0]).value, a.thread)) == Done(a.op, a.outcome)
    ensures Commits(Linearization(m, ls)) != [] && Commits(Linearization(m, ls))[0] == (a.op, a.outcome)
  {
    assert Image(m, ls[0]) == [Linearize(a.thread, a.op, a.outcome)];
  }

  lemma RunPrefix(r: Run, k: nat) returns (p: Run)
    requires r.Valid() && k <= |r.ls|
    ensures p == Run(r.ls[..k], r.ms[..k + 1], r.ss[..k + 1]) && p.Valid()
  {
    p := Run(r.ls[..k], r.ms[..k + 1], r.ss[..k + 1]);
    forall n | 0 <= n <= k ensures p.Visits(n) { assert r.Visits(n); }
  }

  lemma CommitsGrow(r: Run, n: nat, a: Answer, k: nat)
    requires r.Valid() && Decides(r, n, a) && n < k <= |r.ls|
    ensures Exec(EMPTY, r.ls[..n]).Some? && Exec(EMPTY, r.ls[..k]).Some?
    ensures CommitsBefore(r.ls, n) < CommitsBefore(r.ls, k)
  {
    var p := RunPrefix(r, k);
    RunReaches(r, k);
    assert r.ls[..k][..n] == r.ls[..n];
    DecidedIsCommitted(p, n, a);
  }

  /** Calls are committed in the order in which they are decided: the atomic run that Linearizable
      speaks of has them in that order. */
  lemma CommittedInOrder(r: Run, n: nat, a: Answer, n': nat, a': Answer) returns (c: nat, c': nat)
    requires r.Valid() && Exec(EMPTY, r.ls).Some? && n < n' && Decides(r, n, a) && Decides(r, n', a')
    ensures c < c' && CommitAt(r.ls, c, a) && CommitAt(r.ls, c', a')
  {
    DecidedIsCommitted(r, n, a);
    DecidedIsCommitted(r, n', a');
    CommitsGrow(r, n, a, n');
    c, c' := CommitsBefore(r.ls, n), CommitsBefore(r.ls, n');
  }

  // ----- what clients can rely on

  /** At label `n` a call is decided, and takes effect on the logs published just before as the
      contract says. */
  ghost predicate TakesEffect(r: Run, n: nat, a: Answer) {
    && Decides(r, n, a) && |r.ss| == |r.ls| + 1 && WellFormed(r.ss[n])
    && Apply(r.ss[n], a.op) == Effect(r.ss[n + 1], a.outcome)
  }

  lemma DecidedTakesEffect(r: Run, n: nat, a: Answer)
    requires r.Valid() && Decides(r, n, a)
    ensures TakesEffect(r, n, a)
  {
    assert r.Visits(n) && r.Visits(n + 1);
    InternalStep(r.ms[n], a.thread);
  }

  /** Every call takes effect at one label between its call and its return, on logs the run has
      published. */
  lemma TakesEffectBetween(r: Run, h: nat, i: nat, a: Answer) returns (n: nat)
    requires r.Valid() && CallOf(r.ls, h, i, a)
    ensures h < n < i && TakesEffect(r, n, a)
  {
    n := ReturnIsDecided(r, h, i, a);
    DecidedTakesEffect(r, n, a);
  }

  /** Real-time order: a call that has returned before another is made takes effect before it, and
      nothing it left is gone when the other takes effect. */
  lemma ReturnedBeforeCalled(r: Run, h: nat, i: nat, a: Answer, j: nat, k: nat, a': Answer)
    returns (n: nat, n': nat)
    requires r.Valid() && i < j && CallOf(r.ls, h, i, a) && CallOf(r.ls, j, k, a')
    ensures h < n < i < j < n' < k && TakesEffect(r, n, a) && TakesEffect(r, n', a')
    ensures Extends(r.ss[n + 1], r.ss[n'])
  {
    n := TakesEffectBetween(r, h, i, a);
    n' := TakesEffectBetween(r, j, k, a');
    LogsGrow(r, n + 1, n');
  }

  /** A profile a client was shown, by a read or as the answer to its own write. */
  predicate Shows(a: Answer, p: Profile) {
    || (a.op.Get? && a.outcome == Found(p))
    || (a.op.Put? && a.outcome == Applied(p))
    || (a.op.Create? && a.outcome == Created(p))
  }

  lemma ShownIsPublished(s: Store, a: Answer, p: Profile)
    requires WellFormed(s) && Apply(s, a.op).outcome == a.outcome && Shows(a, p)
    ensures var log := Apply(s, a.op).store;
            a.op.user in log && p.version == |log[a.op.user]| && p == Project(a.op.user, Last(log[a.op.user]))
  {
    var log := Apply(s, a.op).store;
    assert GoodLog(log[a.op.user]);
  }

  /** Reads agree with the audit log, however reads and writes overlap: once a client was shown a
      profile at version v, every audit called after that returns at least v entries, and entry v
      is that profile. */
  lemma ShownThenAudited(ls: seq<Label>, h: nat, i: nat, a: Answer, p: Profile,
                         j: nat, k: nat, t: ThreadId, revisions: seq<Revision>)
    requires Exec(EMPTY, ls).Some? && CallOf(ls, h, i, a) && Shows(a, p)
    requires i < j && CallOf(ls, j, k, Answer(t, Audit(a.op.user), Log(revisions)))
    ensures 1 <= p.version <= |revisions| && Project(a.op.user, revisions[p.version - 1]) == p
  {
    var r := RunOf(ls);
    var n, n' := ReturnedBeforeCalled(r, h, i, a, j, k, Answer(t, Audit(a.op.user), Log(revisions)));
    ShownIsPublished(r.ss[n], a, p);
    assert GoodLog(r.ss[n + 1][a.op.user]);
  }

  /** And reads never go back: every read called after that finds the profile at version v or later,
      and at version v exactly as it was shown. */
  lemma ShownThenRead(ls: seq<Label>, h: nat, i: nat, a: Answer, p: Profile, j: nat, k: nat, t: ThreadId, read: Outcome)
    requires Exec(EMPTY, ls).Some? && CallOf(ls, h, i, a) && Shows(a, p)
    requires i < j && CallOf(ls, j, k, Answer(t, Get(a.op.user), read))
    ensures read.Found? && p.version <= read.profile.version
    ensures p.version == read.profile.version ==> p == read.profile
  {
    var r := RunOf(ls);
    var n, n' := ReturnedBeforeCalled(r, h, i, a, j, k, Answer(t, Get(a.op.user), read));
    ShownIsPublished(r.ss[n], a, p);
    ShownIsPublished(r.ss[n'], Answer(t, Get(a.op.user), read), read.profile);
  }

  /** In the order in which updates took effect, however they overlapped, no two accepted updates of
      one user consumed the same version. */
  lemma AcceptedUpdatesConsumeOnce(ls: seq<Label>, i: nat, j: nat)
    requires Exec(EMPTY, ls).Some? && i < j < |Commits(Linearization(EMPTY, ls))|
    requires var commits := Commits(Linearization(EMPTY, ls));
             && commits[i].0.Put? && commits[i].1.Applied? && commits[j].0.Put? && commits[j].1.Applied?
             && commits[i].0.user == commits[j].0.user
    ensures var commits := Commits(Linearization(EMPTY, ls)); commits[i].0.expected < commits[j].0.expected
  {
    var commits := Commits(Linearization(EMPTY, ls));
    Linearizable(ls);
    assert CorrectAt(map[], commits, i) && CorrectAt(map[], commits, j);
    VersionConsumedOnce(map[], Ops(commits), i, j);
  }
}
