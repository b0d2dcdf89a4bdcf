/** Progress of the in-memory backend: reads wait for nobody, every access of a call brings it nearer
    its answer, and whoever waits for the mutex waits for a thread that can move. */
module MemoryProgress {
  import opened Wrappers
  import opened StoreContract
  import opened MemoryMachine
  import opened RealTimeOrder

  /** The accesses a call has left before its answer, at most. */
  function AccessesLeft(pc: Pc): nat {
    match pc
    case Called(_) => 6
    case HasSlot(_) => 5
    case Locked(_) => 4
    case Matched(_, _) => 3
    case Pushed(_, _) => 2
    case Unlocking(_, _) => 1
    case Returning(_, _) => 0
    case Idle => 0
  }

  predicate Critical(pc: Pc) {
    pc.Locked? || pc.Matched? || pc.Pushed? || pc.Unlocking?
  }

  /** A mutex is held only by a thread that is at work on that record. */
  ghost predicate HolderOk(m: Machine, u: UserId)
    requires u in m.cells
  {
    m.cells[u].holder.Some? ==>
      Critical(PcOf(m, m.cells[u].holder.value)) && PcOf(m, m.cells[u].holder.value).op.user == u
  }

  ghost predicate HoldersOk(m: Machine) {
    forall u | u in m.cells :: HolderOk(m, u)
  }

  /** A step of one thread touches at most the record of its own call. */
  lemma StepTouchesOneCell(m: Machine, t: ThreadId, u: UserId)
    requires Step(m, Internal(t)).Some? && u in m.cells && PcOf(m, t).op.user != u
    ensures u in Step(m, Internal(t)).value.cells && Step(m, Internal(t)).value.cells[u] == m.cells[u]
  {
  }

  lemma OwnCellOk(m: Machine, t: ThreadId)
    requires Inv(m) && HoldersOk(m) && Step(m, Internal(t)).Some?
    ensures var u, m' := PcOf(m, t).op.user, Step(m, Internal(t)).value;
            u in m'.cells ==> HolderOk(m', u)
  {
    var u, m' := PcOf(m, t).op.user, Step(m, Internal(t)).value;
    assert ThreadOk(m, t);
    if u in m.cells { assert CellOk(m, u) && HolderOk(m, u); }
  }

  lemma StepKeepsHolders(m: Machine, l: Label)
    requires Inv(m) && HoldersOk(m) && Step(m, l).Some?
    ensures HoldersOk(Step(m, l).value)
  {
    var m' := Step(m, l).value;
    StepMovesOneThread(m, l);
    forall u | u in m'.cells ensures HolderOk(m', u) {
      if l.Internal? && PcOf(m, l.thread).op.user == u {
        OwnCellOk(m, l.thread);
      } else {
        if l.Internal? && u in m.cells { StepTouchesOneCell(m, l.thread, u); }
        OtherCellOk(m, l, u);
      }
    }
  }

  lemma OtherCellOk(m: Machine, l: Label, u: UserId)
    requires HoldersOk(m) && Step(m, l).Some? && u in Step(m, l).value.cells
    requires l.Internal? ==> PcOf(m, l.thread).op.user != u
    ensures HolderOk(Step(m, l).value, u)
  {
    StepMovesOneThread(m, l);
    assert u in m.cells && HolderOk(m, u);
  }

  lemma {:induction false} RunKeepsHolders(r: Run, n: nat)
    requires r.Valid() && n <= |r.ls|
    ensures HoldersOk(r.ms[n])
  {
    if n > 0 {
      RunKeepsHolders(r, n - 1);
      assert r.Visits(n - 1);
      StepKeepsHolders(r.ms[n - 1], r.ls[n - 1]);
    }
  }

  /** Every access of a call brings it nearer its answer, so no call takes more than six. */
  lemma AccessIsProgress(m: Machine, t: ThreadId)
    requires Inv(m) && Step(m, Internal(t)).Some?
    ensures AccessesLeft(PcOf(Step(m, Internal(t)).value, t)) < AccessesLeft(PcOf(m, t))
  {
    assert ThreadOk(m, t);
  }

  /** A read waits for nobody: whatever locks are held and whatever others do, it can always make its
      next access, and it is answered after two. */
  lemma ReadsNeverWait(ls: seq<Label>, t: ThreadId)
    requires Exec(EMPTY, ls).Some?
    requires var pc := PcOf(Exec(EMPTY, ls).value, t); (pc.Called? || pc.HasSlot?) && pc.op.Get?
    ensures var m := Exec(EMPTY, ls).value;
            && Step(m, Internal(t)).Some?
            && var after := PcOf(Step(m, Internal(t)).value, t);
               after.Returning? || (PcOf(m, t).Called? && after == HasSlot(PcOf(m, t).op))
  {
    var r := RunOf(ls);
    assert r.Visits(|ls|);
    assert ThreadOk(r.ms[|ls|], t);
  }

  lemma HolderCanMove(m: Machine, t: ThreadId)
    requires Inv(m) && Critical(PcOf(m, t))
    ensures Step(m, Internal(t)).Some?
  {
    assert ThreadOk(m, t);
  }

  /** The backend never deadlocks. A call can make its next access unless it is a write or an audit
      that has its record and finds the mutex held; then another thread holds it, can move, and is at
      most four accesses from letting go. */
  lemma BlockedOnlyByOneWhoCanMove(ls: seq<Label>, t: ThreadId)
    requires Exec(EMPTY, ls).Some?
    requires var pc := PcOf(Exec(EMPTY, ls).value, t); !pc.Idle? && !pc.Returning?
    ensures var m := Exec(EMPTY, ls).value;
            var pc := PcOf(m, t);
            && (Step(m, Internal(t)).None? <==>
                  pc.HasSlot? && !pc.op.Get? && pc.op.user in m.cells && m.cells[pc.op.user].holder.Some?)
            && (Step(m, Internal(t)).None? ==>
                  var holder := m.cells[pc.op.user].holder.value;
                  && holder != t && Critical(PcOf(m, holder)) && Step(m, Internal(holder)).Some?
                  && AccessesLeft(PcOf(m, holder)) <= 4)
  {
    var r := RunOf(ls);
    var m := r.ms[|ls|];
    assert r.Visits(|ls|);
    RunKeepsHolders(r, |ls|);
    assert ThreadOk(m, t);
    if Step(m, Internal(t)).None? {
      assert HolderOk(m, PcOf(m, t).op.user);
      HolderCanMove(m, m.cells[PcOf(m, t).op.user].holder.value);
    }
  }
}
