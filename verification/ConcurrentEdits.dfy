/** No lost update over the interleaved store: clients that read, edit and write back with the version
    they read, any number of them, any access of one between any two of another. */
module ConcurrentEdits {
  import opened Wrappers
  import opened StoreContract
  import opened MemoryMachine
  import opened RealTimeOrder

  /** Each thread's own edit of a user's profile. */
  type Edits = (ThreadId, ProfileInput) -> ProfileInput

  function ContentOf(r: Revision): ProfileInput {
    ProfileInput(r.address, r.phoneNumber)
  }

  /** An answer that shows the client a profile: of a read, or of its own create or accepted update. */
  predicate Tells(outcome: Outcome) {
    outcome.Found? || outcome.Applied? || outcome.Created?
  }

  /** An answer that justifies a write: it showed the version the write quotes, and the write
      sends the thread's edit of what it was answered. */
  predicate Justifies(l: Label, t: ThreadId, op: Op, edit: Edits) {
    && l.Return? && Tells(l.outcome) && op.Put?
    && var p := l.outcome.profile;
       p.userId == op.user && p.version == op.expected && op.input == edit(t, p.Content())
  }

  /** The discipline of the clients of one user, and all that is asked of them. */
  ghost predicate ReadModifyWrite(ls: seq<Label>, u: UserId, edit: Edits) {
    forall j | 0 <= j < |ls| && ls[j].Call? && ls[j].op.Put? && ls[j].op.user == u ::
      exists i :: 0 <= i < j && Justifies(ls[i], ls[j].thread, ls[j].op, edit)
  }

  // ----- the invariant

  predicate IsPublished(s: Store, p: Profile) {
    && p.userId in s && 1 <= p.version <= |s[p.userId]|
    && p == Project(p.userId, s[p.userId][p.version - 1])
  }

  /** What a thread is about to be told, and what any was told, is published. */
  ghost predicate Truthful(ls: seq<Label>, m: Machine)
    requires Inv(m)
  {
    && (forall t | t in m.threads && AbsPc(m.threads[t]).Done? && Tells(AbsPc(m.threads[t]).outcome) ::
          IsPublished(AbsStore(m), AbsPc(m.threads[t]).outcome.profile))
    && (forall l | l in ls && l.Return? && Tells(l.outcome) :: IsPublished(AbsStore(m), l.outcome.profile))
  }

  /** A write under way quotes a published version and sends the edit of what that version holds. */
  ghost predicate IsEdit(ls: seq<Label>, s: Store, t: ThreadId, op: Op, edit: Edits) {
    && op.Put? && op.user in s && 1 <= op.expected <= |s[op.user]|
    && op.input == edit(t, ContentOf(s[op.user][op.expected - 1]))
    && Call(t, op) in ls
  }

  ghost predicate WritesAreEdits(ls: seq<Label>, m: Machine, u: UserId, edit: Edits)
    requires Inv(m)
  {
    forall t | t in m.threads && AbsPc(m.threads[t]).Pending? && m.threads[t].op.Put? && m.threads[t].op.user == u ::
      IsEdit(ls, AbsStore(m), t, m.threads[t].op, edit)
  }

  /** Version v+1 is what some thread sent as its edit of version v. */
  ghost predicate EditOfPrevious(ls: seq<Label>, log: seq<Revision>, u: UserId, v: nat, edit: Edits)
    requires 1 <= v < |log|
  {
    v < U64_LIMIT && exists t: ThreadId ::
      && ContentOf(log[v]) == edit(t, ContentOf(log[v - 1]))
      && Call(t, Put(u, v, ContentOf(log[v]), log[v].recordedAtMs)) in ls
  }

  ghost predicate NothingLost(ls: seq<Label>, s: Store, u: UserId, edit: Edits) {
    u in s ==> forall v | 1 <= v < |s[u]| :: EditOfPrevious(ls, s[u], u, v, edit)
  }

  ghost predicate Kept(ls: seq<Label>, m: Machine, u: UserId, edit: Edits) {
    && Inv(m) && Truthful(ls, m) && WritesAreEdits(ls, m, u, edit) && NothingLost(ls, AbsStore(m), u, edit)
  }

  // ----- one step

  lemma PublishedStays(s: Store, s': Store, p: Profile)
    requires Extends(s, s') && IsPublished(s, p)
    ensures IsPublished(s', p)
  {
  }

  lemma ThreadsAfter(m: Machine, l: Label)
    requires Step(m, l).Some?
    ensures Step(m, l).value.threads == m.threads[l.thread := PcOf(Step(m, l).value, l.thread)]
  {
    StepMovesOneThread(m, l);
  }

  lemma ApplyShowsPublished(s: Store, op: Op)
    requires WellFormed(s) && Tells(Apply(s, op).outcome)
    ensures IsPublished(Apply(s, op).store, Apply(s, op).outcome.profile)
  {
    assert GoodLog(Apply(s, op).store[op.user]);
  }

  /** A thread that is told something is told what is published. */
  lemma ToldIsPublished(m: Machine, t: ThreadId)
    requires Inv(m) && Step(m, Internal(t)).Some? && Inv(Step(m, Internal(t)).value)
    requires AbsPc(PcOf(m, t)).Pending? && AbsPc(PcOf(Step(m, Internal(t)).value, t)).Done?
    requires Tells(AbsPc(PcOf(Step(m, Internal(t)).value, t)).outcome)
    ensures var m' := Step(m, Internal(t)).value;
            IsPublished(AbsStore(m'), AbsPc(PcOf(m', t)).outcome.profile)
  {
    Published(m, "");
    InternalStep(m, t);
    var op := AbsPc(PcOf(m, t)).op;
    ApplyShowsPublished(AbsStore(m), op);
  }

  lemma StepKeepsTruthful(ls: seq<Label>, m: Machine, l: Label)
    requires Inv(m) && Truthful(ls, m) && Step(m, l).Some?
    ensures Inv(Step(m, l).value) && Truthful(ls + [l], Step(m, l).value)
  {
    var m' := Step(m, l).value;
    StepGrows(m, l);
    ThreadsAfter(m, l);
    forall t | t in m'.threads && AbsPc(m'.threads[t]).Done? && Tells(AbsPc(m'.threads[t]).outcome)
      ensures IsPublished(AbsStore(m'), AbsPc(m'.threads[t]).outcome.profile)
    {
      if l == Internal(t) && AbsPc(PcOf(m, t)).Pending? {
        ToldIsPublished(m, t);
      } else {
        if l.thread == t && l.Internal? { Published(m, ""); InternalStep(m, t); }
        PublishedStays(AbsStore(m), AbsStore(m'), AbsPc(m.threads[t]).outcome.profile);
      }
    }
    forall r | r in ls + [l] && r.Return? && Tells(r.outcome) ensures IsPublished(AbsStore(m'), r.outcome.profile) {
      if r !in ls { assert AbsPc(m.threads[r.thread]).outcome == r.outcome; }
      PublishedStays(AbsStore(m), AbsStore(m'), r.outcome.profile);
    }
  }

  lemma EditStays(ls: seq<Label>, l: Label, s: Store, s': Store, t: ThreadId, op: Op, edit: Edits)
    requires Extends(s, s') && IsEdit(ls, s, t, op, edit)
    ensures IsEdit(ls + [l], s', t, op, edit)
  {
  }

  lemma CallIsEdit(ls: seq<Label>, m: Machine, t: ThreadId, op: Op, edit: Edits, s': Store)
    requires Inv(m) && Truthful(ls, m) && op.Put? && Extends(AbsStore(m), s')
    requires exists i :: 0 <= i < |ls| && Justifies(ls[i], t, op, edit)
    ensures IsEdit(ls + [Call(t, op)], s', t, op, edit)
  {
    var i :| 0 <= i < |ls| && Justifies(ls[i], t, op, edit);
    assert ls[i] in ls;
    PublishedStays(AbsStore(m), s', ls[i].outcome.profile);
  }

  lemma StepKeepsWrites(ls: seq<Label>, m: Machine, l: Label, u: UserId, edit: Edits)
    requires Inv(m) && Truthful(ls, m) && WritesAreEdits(ls, m, u, edit) && Step(m, l).Some?
    requires l.Call? && l.op.Put? && l.op.user == u ==>
               exists i :: 0 <= i < |ls| && Justifies(ls[i], l.thread, l.op, edit)
    ensures Inv(Step(m, l).value) && WritesAreEdits(ls + [l], Step(m, l).value, u, edit)
  {
    var m' := Step(m, l).value;
    StepGrows(m, l);
    ThreadsAfter(m, l);
    forall t | t in m'.threads && AbsPc(m'.threads[t]).Pending? && m'.threads[t].op.Put? && m'.threads[t].op.user == u
      ensures IsEdit(ls + [l], AbsStore(m'), t, m'.threads[t].op, edit)
    {
      var op := m'.threads[t].op;
      if l.Call? && l.thread == t {
        CallIsEdit(ls, m, t, op, edit, AbsStore(m'));
      } else {
        if l.thread == t { StillPending(m, l); }
        EditStays(ls, l, AbsStore(m), AbsStore(m'), t, op, edit);
      }
    }
  }

  lemma StillPending(m: Machine, l: Label)
    requires Inv(m) && Step(m, l).Some? && !l.Call? && AbsPc(PcOf(Step(m, l).value, l.thread)).Pending?
    ensures l.thread in m.threads && AbsPc(m.threads[l.thread]) == AbsPc(PcOf(Step(m, l).value, l.thread))
  {
    StepGrows(m, l);
    if l.Internal? { InternalStep(m, l.thread); }
  }

  /** A log that has gained nothing, or one revision that is an edit of the last, has lost nothing. */
  lemma LogKeepsEdits(ls: seq<Label>, l: Label, s: Store, s': Store, u: UserId, edit: Edits)
    requires WellFormed(s) && WellFormed(s') && Extends(s, s') && NothingLost(ls, s, u, edit)
    requires u in s' ==> if u in s then |s'[u]| <= |s[u]| + 1 else |s'[u]| == 1
    requires u in s && |s'[u]| > |s[u]| ==> EditOfPrevious(ls + [l], s'[u], u, |s[u]|, edit)
    ensures NothingLost(ls + [l], s', u, edit)
  {
    if u in s' {
      forall v | 1 <= v < |s'[u]| ensures EditOfPrevious(ls + [l], s'[u], u, v, edit) {
        if u in s && v < |s[u]| { EditOfPreviousStays(ls, l, s[u], s'[u], u, v, edit); }
      }
    }
  }

  lemma EditOfPreviousStays(ls: seq<Label>, l: Label, log: seq<Revision>, log': seq<Revision>, u: UserId, v: nat,
                            edit: Edits)
    requires log <= log' && 1 <= v < |log| && EditOfPrevious(ls, log, u, v, edit)
    ensures EditOfPrevious(ls + [l], log', u, v, edit)
  {
    var t: ThreadId :|
      && ContentOf(log[v]) == edit(t, ContentOf(log[v - 1]))
      && Call(t, Put(u, v, ContentOf(log[v]), log[v].recordedAtMs)) in ls;
    assert Call(t, Put(u, v, ContentOf(log'[v]), log'[v].recordedAtMs)) in ls + [l];
  }

  /** The call that takes effect adds at most the edit it was made with. */
  lemma EffectKeepsEdits(ls: seq<Label>, l: Label, s: Store, t: ThreadId, op: Op, u: UserId, edit: Edits)
    requires WellFormed(s) && NothingLost(ls, s, u, edit)
    requires op.Put? && op.user == u ==> IsEdit(ls, s, t, op, edit)
    ensures NothingLost(ls + [l], Apply(s, op).store, u, edit)
  {
    var s' := Apply(s, op).store;
    ApplyExtends(s, op);
    if op.Put? && op.user == u {
      PutIsCompareAndSwap(s, u, op.expected, op.input, op.now);
      if Apply(s, op).outcome.Applied? {
        var v := |s[u]|;
        assert s'[u][v] == MakeRevision(v + 1, op.input, op.now) && s'[u][v - 1] == s[u][v - 1];
        assert Call(t, Put(u, v, ContentOf(s'[u][v]), s'[u][v].recordedAtMs)) in ls + [l];
        assert EditOfPrevious(ls + [l], s'[u], u, v, edit);
      }
    }
    LogKeepsEdits(ls, l, s, s', u, edit);
  }

  lemma StepKeepsLog(ls: seq<Label>, m: Machine, l: Label, u: UserId, edit: Edits)
    requires Inv(m) && WritesAreEdits(ls, m, u, edit) && NothingLost(ls, AbsStore(m), u, edit) && Step(m, l).Some?
    ensures Inv(Step(m, l).value) && NothingLost(ls + [l], AbsStore(Step(m, l).value), u, edit)
  {
    var m' := Step(m, l).value;
    StepGrows(m, l);
    if l.Internal? && AbsPc(PcOf(m, l.thread)).Pending? && AbsPc(PcOf(m', l.thread)).Done? {
      InternalStep(m, l.thread);
      EffectKeepsEdits(ls, l, AbsStore(m), l.thread, AbsPc(PcOf(m, l.thread)).op, u, edit);
    } else {
      if l.Internal? { InternalStep(m, l.thread); } else { GotoKeepsInv(m, l.thread, PcOf(m', l.thread)); }
      Published(m, "");
      LogKeepsEdits(ls, l, AbsStore(m), AbsStore(m'), u, edit);
    }
  }

  // ----- every run

  lemma {:induction false} RunKeeps(ls: seq<Label>, u: UserId, edit: Edits)
    requires Exec(EMPTY, ls).Some? && ReadModifyWrite(ls, u, edit)
    ensures Kept(ls, Exec(EMPTY, ls).value, u, edit)
  {
    if ls == [] {
      EmptyInv();
      assert AbsStore(EMPTY) == map[];
    } else {
      var n := |ls| - 1;
      assert ls == ls[..n] + [ls[n]];
      ExecSplit(EMPTY, ls[..n], [ls[n]]);
      assert ReadModifyWrite(ls[..n], u, edit) by {
        forall j | 0 <= j < n && ls[..n][j].Call? && ls[..n][j].op.Put? && ls[..n][j].op.user == u
          ensures exists i :: 0 <= i < j && Justifies(ls[..n][i], ls[..n][j].thread, ls[..n][j].op, edit)
        {
          assert ls[..n][j] == ls[j];
          var i :| 0 <= i < j && Justifies(ls[i], ls[j].thread, ls[j].op, edit);
          assert ls[..n][i] == ls[i];
        }
      }
      RunKeeps(ls[..n], u, edit);
      OneMoreStepKeeps(ls, Exec(EMPTY, ls[..n]).value, u, edit);
    }
  }

  lemma OneMoreStepKeeps(ls: seq<Label>, m: Machine, u: UserId, edit: Edits)
    requires ls != [] && ReadModifyWrite(ls, u, edit)
    requires Kept(ls[..|ls| - 1], m, u, edit) && Exec(m, [ls[|ls| - 1]]).Some?
    ensures Kept(ls, Exec(m, [ls[|ls| - 1]]).value, u, edit)
  {
    var n := |ls| - 1;
    var front, l := ls[..n], ls[n];
    assert [l][1..] == [];
    assert front + [l] == ls;
    if l.Call? && l.op.Put? && l.op.user == u {
      var i :| 0 <= i < n && Justifies(ls[i], l.thread, l.op, edit);
      assert Justifies(front[i], l.thread, l.op, edit);
    }
    StepKeepsTruthful(front, m, l);
    StepKeepsWrites(front, m, l, u, edit);
    StepKeepsLog(front, m, l, u, edit);
  }

  // ----- accepted updates

  /** How many updates of a user have been accepted. */
  function Accepted(commits: seq<(Op, Outcome)>, u: UserId): nat {
    if commits == [] then 0
    else
      var n := |commits| - 1;
      var (op, outcome) := commits[n];
      Accepted(commits[..n], u) + if op.Put? && op.user == u && outcome.Applied? then 1 else 0
  }

  lemma OpsOfFront(commits: seq<(Op, Outcome)>, n: nat)
    requires n <= |commits|
    ensures Ops(commits)[..n] == Ops(commits[..n])
  {
  }

  lemma CorrectFront(commits: seq<(Op, Outcome)>)
    requires commits != [] && SequentiallyCorrect(map[], commits)
    ensures SequentiallyCorrect(map[], commits[..|commits| - 1])
    ensures var n := |commits| - 1;
            Apply(After(map[], Ops(commits[..n])), commits[n].0) ==
            Effect(After(map[], Ops(commits)), commits[n].1)
  {
    var n := |commits| - 1;
    var front := commits[..n];
    OpsOfFront(commits, n);
    assert CorrectAt(map[], commits, n);
    forall i | 0 <= i < n ensures CorrectAt(map[], front, i) {
      assert CorrectAt(map[], commits, i);
      assert Ops(front)[..i] == Ops(commits)[..i];
    }
  }

  /** A user's log holds its create and its accepted updates, one revision each. */
  lemma {:induction false} LogCountsAccepted(commits: seq<(Op, Outcome)>, u: UserId)
    requires SequentiallyCorrect(map[], commits)
    ensures var s := After(map[], Ops(commits));
            if u in s then |s[u]| == 1 + Accepted(commits, u) else Accepted(commits, u) == 0
  {
    if commits != [] {
      var n := |commits| - 1;
      var before := After(map[], Ops(commits[..n]));
      CorrectFront(commits);
      LogCountsAccepted(commits[..n], u);
      ApplyExtends(before, commits[n].0);
      OneAccepted(before, commits[n].0, u);
    }
  }

  lemma OneAccepted(s: Store, op: Op, u: UserId)
    requires WellFormed(s)
    ensures var e := Apply(s, op);
            var accepted := op.Put? && op.user == u && e.outcome.Applied?;
            && (u in s ==> u in e.store && |e.store[u]| == |s[u]| + if accepted then 1 else 0)
            && (u !in s ==> !accepted && (u in e.store ==> |e.store[u]| == 1))
  {
    if op.Put? { PutIsCompareAndSwap(s, op.user, op.expected, op.input, op.now); }
  }

  /** The logs a run ends with are those of its linearization. */
  lemma FinalLogs(ls: seq<Label>) returns (s: Store, commits: seq<(Op, Outcome)>)
    requires Exec(EMPTY, ls).Some?
    ensures Inv(Exec(EMPTY, ls).value) && s == AbsStore(Exec(EMPTY, ls).value)
    ensures commits == Commits(Linearization(EMPTY, ls)) && SequentiallyCorrect(map[], commits)
    ensures s == After(map[], Ops(commits))
  {
    EmptyInv();
    assert Abs(EMPTY) == AEMPTY;
    RunSimulates(EMPTY, ls);
    Linearizable(ls);
    commits := Commits(Linearization(EMPTY, ls));
    s := AbsStore(Exec(EMPTY, ls).value);
  }

  /** No update is lost: whatever overlaps what, version v+1 of a user's profile is always what one
      thread sent as its edit of version v, there is one version for the create and one for each
      accepted update, and every profile any client was shown is one of the versions. */
  lemma EveryVersionIsAnEdit(ls: seq<Label>, u: UserId, edit: Edits) returns (s: Store, commits: seq<(Op, Outcome)>)
    requires Exec(EMPTY, ls).Some? && ReadModifyWrite(ls, u, edit)
    ensures commits == Commits(Linearization(EMPTY, ls)) && s == After(map[], Ops(commits))
    ensures forall l | l in ls && l.Return? && Tells(l.outcome) :: IsPublished(s, l.outcome.profile)
    ensures u in s ==> |s[u]| == 1 + Accepted(commits, u)
    ensures u in s ==> forall v | 1 <= v < |s[u]| :: EditOfPrevious(ls, s[u], u, v, edit)
  {
    RunKeeps(ls, u, edit);
    s, commits := FinalLogs(ls);
    LogCountsAccepted(commits, u);
  }

  /** So when each edit adds one to some reading of the profile, n accepted increments have added
      exactly n to what the create put there. */
  lemma IncrementsAddUp(ls: seq<Label>, u: UserId, edit: Edits, reading: ProfileInput -> int)
    returns (s: Store, commits: seq<(Op, Outcome)>)
    requires Exec(EMPTY, ls).Some? && ReadModifyWrite(ls, u, edit)
    requires forall t: ThreadId, c :: reading(edit(t, c)) == reading(c) + 1
    ensures commits == Commits(Linearization(EMPTY, ls)) && s == After(map[], Ops(commits))
    ensures u in s ==>
              |s[u]| > 0 && reading(ContentOf(Last(s[u]))) == reading(ContentOf(s[u][0])) + Accepted(commits, u)
  {
    s, commits := EveryVersionIsAnEdit(ls, u, edit);
    if u in s { ReadingAt(ls, s[u], u, edit, reading, |s[u]| - 1); }
  }

  lemma {:induction false} ReadingAt(ls: seq<Label>, log: seq<Revision>, u: UserId, edit: Edits,
                                     reading: ProfileInput -> int, i: nat)
    requires forall t: ThreadId, c :: reading(edit(t, c)) == reading(c) + 1
    requires forall v | 1 <= v < |log| :: EditOfPrevious(ls, log, u, v, edit)
    requires i < |log|
    ensures reading(ContentOf(log[i])) == reading(ContentOf(log[0])) + i
  {
    if i > 0 {
      ReadingAt(ls, log, u, edit, reading, i - 1);
      assert EditOfPrevious(ls, log, u, i, edit);
    }
  }
}
