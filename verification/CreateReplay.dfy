/** When a create is answered 201, exactly: the promise of a replay, and how a creator that dies or
    is slow breaks it. */
module CreateReplay {
  import opened Wrappers
  import opened StoreContract
  import opened Idempotency
  import opened CreateProtocol

  // ----- the worlds along a run

  ghost predicate TraceStep(site: Site, ls: seq<Label>, ws: seq<World>, n: nat)
    requires n < |ls| && |ws| == |ls| + 1
  {
    WellFormed(ws[n].store) && Step(site, ws[n], ls[n]) == Some(ws[n + 1])
  }

  /** A run from the start with the worlds it passes through: `ws[n]` is the one after `n` steps. */
  ghost predicate Trace(site: Site, ls: seq<Label>, ws: seq<World>) {
    && |ws| == |ls| + 1 && ws[0] == START
    && forall n | 0 <= n < |ls| :: TraceStep(site, ls, ws, n)
  }

  /** Every run has one. */
  lemma {:induction false} RunHasTrace(site: Site, ls: seq<Label>) returns (ws: seq<World>)
    requires Exec(site, START, ls).Some?
    ensures Trace(site, ls, ws) && Exec(site, START, ls) == Some(ws[|ls|])
  {
    if ls == [] {
      ws := [START];
    } else {
      var n := |ls| - 1;
      var front := RunHasTrace(site, ls[..n]);
      RunKeepsInv(site, START, ls[..n]);
      ws := front + [Exec(site, START, ls).value];
      forall k | 0 <= k < |ls| ensures TraceStep(site, ls, ws, k) {
        if k < n { assert TraceStep(site, ls[..n], front, k); }
      }
    }
  }

  lemma {:induction false} TraceKeepsInv(site: Site, ls: seq<Label>, ws: seq<World>, n: nat)
    requires Trace(site, ls, ws) && n <= |ls|
    ensures Inv(site, ws[n])
  {
    if n > 0 {
      TraceKeepsInv(site, ls, ws, n - 1);
      assert TraceStep(site, ls, ws, n - 1);
      StepKeepsInv(site, ws[n - 1], ls[n - 1]);
    }
  }

  /** What a request asked for never changes, and once it is answered or dead nothing does. */
  ghost predicate SameRequest(w: World, w': World, id: nat)
    requires id in w.requests
  {
    && id in w'.requests && w'.requests[id].(pc := w.requests[id].pc) == w.requests[id]
    && (!Active(w.requests[id].pc) ==> w'.requests[id] == w.requests[id])
  }

  lemma StepKeepsRequest(site: Site, w: World, l: Label, id: nat)
    requires WellFormed(w.store) && Step(site, w, l).Some? && id in w.requests
    ensures SameRequest(w, Step(site, w, l).value, id)
  {
  }

  lemma {:induction false} RequestStays(site: Site, ls: seq<Label>, ws: seq<World>, n: nat, k: nat, id: nat)
    requires Trace(site, ls, ws) && n <= k <= |ls| && id in ws[n].requests
    ensures SameRequest(ws[n], ws[k], id)
  {
    if n < k {
      RequestStays(site, ls, ws, n, k - 1, id);
      assert TraceStep(site, ls, ws, k - 1);
      StepKeepsRequest(site, ws[k - 1], ls[k - 1], id);
    }
  }

  // ----- what becomes of the creator

  /** A creator has its outcome in hand, has answered with it, or is dead. */
  ghost predicate CreatorsAreFresh(w: World) {
    forall u | u in w.creator :: FreshOrDead(w, w.creator[u])
  }

  ghost predicate FreshOrDead(w: World, id: nat) {
    id in w.requests && (Fresh(w.requests[id].pc) || w.requests[id].pc.Dead?)
  }

  lemma FreshStaysFresh(site: Site, w: World, l: Label, id: nat)
    requires WellFormed(w.store) && Step(site, w, l).Some? && FreshOrDead(w, id)
    ensures FreshOrDead(Step(site, w, l).value, id)
  {
  }

  lemma CreatorsAfter(site: Site, w: World, l: Label)
    requires WellFormed(w.store) && Step(site, w, l).Some?
    ensures var w' := Step(site, w, l).value;
            || w'.creator == w.creator
            || (l.CreateProfile? && l.id in w.requests && FreshOrDead(w', l.id)
                && w'.creator == w.creator[w.requests[l.id].user := l.id])
  {
  }

  lemma StepKeepsCreatorsFresh(site: Site, w: World, l: Label)
    requires WellFormed(w.store) && CreatorsAreFresh(w) && Step(site, w, l).Some?
    ensures CreatorsAreFresh(Step(site, w, l).value)
  {
    var w' := Step(site, w, l).value;
    CreatorsAfter(site, w, l);
    forall u | u in w'.creator ensures FreshOrDead(w', w'.creator[u]) {
      if u in w.creator && w'.creator[u] == w.creator[u] { FreshStaysFresh(site, w, l, w.creator[u]); }
    }
  }

  lemma {:induction false} CreatorIsFresh(site: Site, ls: seq<Label>, ws: seq<World>, n: nat)
    requires Trace(site, ls, ws) && n <= |ls|
    ensures CreatorsAreFresh(ws[n])
  {
    if n > 0 {
      CreatorIsFresh(site, ls, ws, n - 1);
      assert TraceStep(site, ls, ws, n - 1);
      StepKeepsCreatorsFresh(site, ws[n - 1], ls[n - 1]);
    }
  }

  /** When the creator reaches its settle, it sends its outcome. */
  lemma CreatorSends(site: Site, ls: seq<Label>, ws: seq<World>, m: nat, k: nat, user: UserId)
    requires Trace(site, ls, ws) && m < k <= |ls| && user in ws[k].creator
    requires ls[m] == Settle(ws[k].creator[user])
    ensures var id, w := ws[k].creator[user], ws[m];
            && id in w.requests && w.requests[id].pc.Made? && w.requests[id].user == user && CreatedBy(w, user, id)
            && ws[m + 1] == Settlement(site, w, id)
            && Answered201(ws[k], id, user, w.requests[id].pc.recorded)
            && ws[k].requests[id].pc == Answered(Sent(w.requests[id].pc.recorded))
  {
    var id, w := ws[k].creator[user], ws[m];
    assert TraceStep(site, ls, ws, m);
    RequestStays(site, ls, ws, m + 1, k, id);
    CreatorIsFresh(site, ls, ws, k);
    TraceKeepsInv(site, ls, ws, k);
    MadeIsCreator(site, ls, ws, m, user, id);
  }

  lemma MadeIsCreator(site: Site, ls: seq<Label>, ws: seq<World>, m: nat, user: UserId, id: nat)
    requires Trace(site, ls, ws) && m <= |ls|
    requires var w := ws[m]; id in w.requests && w.requests[id].pc.Made? && w.requests[id].user == user
    ensures CreatedBy(ws[m], user, id)
  {
    TraceKeepsInv(site, ls, ws, m);
    assert RequestOk(site, ws[m], id);
  }

  /** And only a request that reached its settle has sent one. */
  lemma {:induction false} SentIsSettled(site: Site, ls: seq<Label>, ws: seq<World>, k: nat, id: nat)
    requires Trace(site, ls, ws) && k <= |ls| && id in ws[k].requests
    requires ws[k].requests[id].pc.Answered? && ws[k].requests[id].pc.answer.Sent?
    ensures exists m | 0 <= m < k :: ls[m] == Settle(id)
  {
    if k > 0 {
      assert TraceStep(site, ls, ws, k - 1);
      var w := ws[k - 1];
      if id in w.requests && w.requests[id].pc == ws[k].requests[id].pc {
        SentIsSettled(site, ls, ws, k - 1, id);
      } else {
        SendingIsSettle(site, w, ls[k - 1], id);
      }
    }
  }

  lemma SendingIsSettle(site: Site, w: World, l: Label, id: nat)
    requires WellFormed(w.store) && Step(site, w, l).Some? && id in Step(site, w, l).value.requests
    requires var pc := Step(site, w, l).value.requests[id].pc;
             && pc.Answered? && pc.answer.Sent? && !(id in w.requests && w.requests[id].pc == pc)
    ensures l == Settle(id)
  {
  }

  // ----- what a key holds

  /** The user's creator settled at step `m` of the run, under this key and a body of this
      fingerprint, less than the retention before `now`. */
  ghost predicate RecordedAt(site: Site, ls: seq<Label>, ws: seq<World>, m: nat, user: UserId, key: string,
                             fingerprint: nat, now: nat)
    requires Trace(site, ls, ws)
  {
    && m < |ls|
    && var w := ws[m];
       && user in w.creator && ls[m] == Settle(w.creator[user]) && w.creator[user] in w.requests
       && w.requests[w.creator[user]].key == Some(key)
       && site.policy.fingerprint(w.requests[w.creator[user]].body) == fingerprint
       && now < w.now + site.policy.retention
  }

  /** The user's creator had settled under the key a request presents, if any, with an equal body,
      less than the retention before the request arrived at step `n`. */
  ghost predicate RecordedBefore(site: Site, ls: seq<Label>, ws: seq<World>, n: nat)
    requires Trace(site, ls, ws) && n < |ls| && ls[n].Arrive?
  {
    var a, key := ls[n], KeyOf(ls[n].header);
    var fingerprint := site.policy.fingerprint(a.body);
    key.Some? && exists m | 0 <= m < n :: RecordedAt(site, ls, ws, m, a.user, key.value, fingerprint, ws[n].now)
  }

  /** Every recorded outcome was put there by the settle of its user's creator. */
  lemma {:induction false} EntryIsRecorded(site: Site, ls: seq<Label>, ws: seq<World>, k: nat, slot: Slot, now: nat)
    returns (m: nat)
    requires Trace(site, ls, ws) && k <= |ls| && slot in ws[k].entries
    requires var e := ws[k].entries[slot]; e.Complete? && now < e.at + site.policy.retention
    ensures m < k && RecordedAt(site, ls, ws, m, slot.0, slot.1, ws[k].entries[slot].fingerprint, now)
  {
    if k > 0 {
      assert TraceStep(site, ls, ws, k - 1);
      var w, e := ws[k - 1], ws[k].entries[slot];
      if slot in w.entries && w.entries[slot] == e {
        m := EntryIsRecorded(site, ls, ws, k - 1, slot, now);
      } else {
        m := k - 1;
        TraceKeepsInv(site, ls, ws, m);
        RecordingIsSettle(site, w, ls[m], slot);
      }
    }
  }

  lemma RecordingIsSettle(site: Site, w: World, l: Label, slot: Slot)
    requires Inv(site, w) && Step(site, w, l).Some? && slot in Step(site, w, l).value.entries
    requires var e := Step(site, w, l).value.entries[slot];
             e.Complete? && !(slot in w.entries && w.entries[slot] == e)
    ensures l.Settle? && l.id in w.requests && w.requests[l.id].user == slot.0 && w.requests[l.id].key == Some(slot.1)
    ensures CreatedBy(w, slot.0, l.id)
    ensures var e := Step(site, w, l).value.entries[slot];
            e.fingerprint == site.policy.fingerprint(w.requests[l.id].body) && e.at == w.now
  {
    if l.Settle? { assert RequestOk(site, w, l.id); }
  }

  lemma {:induction false} CompleteStays(site: Site, ls: seq<Label>, ws: seq<World>, n: nat, k: nat, slot: Slot)
    requires Trace(site, ls, ws) && n <= k <= |ls| && slot in ws[n].entries
    requires var e := ws[n].entries[slot]; e.Complete? && ws[k].now < e.at + site.policy.retention
    ensures slot in ws[k].entries && ws[k].entries[slot] == ws[n].entries[slot]
  {
    if n < k {
      assert TraceStep(site, ls, ws, k - 1);
      CompleteStays(site, ls, ws, n, k - 1, slot);
      TraceKeepsInv(site, ls, ws, k - 1);
      StepKeepsComplete(site, ws[k - 1], ls[k - 1], slot);
    }
  }

  /** And what it put there is still there for the retention. */
  lemma RecordedIsEntry(site: Site, ls: seq<Label>, ws: seq<World>, m: nat, k: nat, user: UserId, key: string,
                        fingerprint: nat)
    requires Trace(site, ls, ws) && m < k <= |ls|
    requires RecordedAt(site, ls, ws, m, user, key, fingerprint, ws[k].now)
    ensures var entries := ws[k].entries;
            && (user, key) in entries && entries[(user, key)].Complete?
            && entries[(user, key)].fingerprint == fingerprint
            && ws[k].now < entries[(user, key)].at + site.policy.retention
  {
    assert TraceStep(site, ls, ws, m);
    CreatorSends(site, ls, ws, m, m + 1, user);
    CompleteStays(site, ls, ws, m + 1, k, (user, key));
  }

  /** A key is answered with a replay exactly when the user's creator recorded under it in time. */
  lemma ReplaysExactlyRecorded(site: Site, ls: seq<Label>, ws: seq<World>, k: nat, user: UserId, key: string,
                               body: string)
    requires Trace(site, ls, ws) && k <= |ls|
    ensures var w := ws[k];
            BeginOn(site.policy, w.entries, (user, key), body, w.now).lookup.Replay? <==>
            exists m | 0 <= m < k :: RecordedAt(site, ls, ws, m, user, key, site.policy.fingerprint(body), w.now)
  {
    var w := ws[k];
    if BeginOn(site.policy, w.entries, (user, key), body, w.now).lookup.Replay? {
      var m := EntryIsRecorded(site, ls, ws, k, (user, key), w.now);
    }
    if m :| 0 <= m < k && RecordedAt(site, ls, ws, m, user, key, site.policy.fingerprint(body), w.now) {
      RecordedIsEntry(site, ls, ws, m, k, user, key, site.policy.fingerprint(body));
    }
  }

  // ----- every answer

  predicate IsReplay(pc: Pc) {
    pc.Answered? && pc.answer.Replayed?
  }

  lemma StepNeverReplays(site: Site, w: World, l: Label, id: nat)
    requires WellFormed(w.store) && Step(site, w, l).Some? && id in w.requests && !IsReplay(w.requests[id].pc)
    ensures id in Step(site, w, l).value.requests && !IsReplay(Step(site, w, l).value.requests[id].pc)
  {
  }

  /** A request let in to work is never answered with a replay. */
  lemma {:induction false} WorkIsNeverReplayed(site: Site, ls: seq<Label>, ws: seq<World>, n: nat, k: nat, id: nat)
    requires Trace(site, ls, ws) && n <= k <= |ls|
    requires id in ws[n].requests && ws[n].requests[id].pc.Working?
    ensures id in ws[k].requests && !IsReplay(ws[k].requests[id].pc)
  {
    if n < k {
      WorkIsNeverReplayed(site, ls, ws, n, k - 1, id);
      assert TraceStep(site, ls, ws, k - 1);
      StepNeverReplays(site, ws[k - 1], ls[k - 1], id);
    }
  }

  /** The user's creator, and it reached its settle. */
  ghost predicate CreatedAndSettled(ls: seq<Label>, w: World, user: UserId, id: nat) {
    CreatedBy(w, user, id) && exists m | 0 <= m < |ls| :: ls[m] == Settle(id)
  }

  /** A request answered on arrival. */
  lemma AnsweredAtOnce(site: Site, ls: seq<Label>, ws: seq<World>, n: nat)
    requires Trace(site, ls, ws) && n < |ls| && ls[n].Arrive?
    requires ls[n].id in ws[n + 1].requests && ws[n + 1].requests[ls[n].id].pc.Answered?
    requires !ws[n + 1].requests[ls[n].id].pc.answer.Sent?
    ensures var w, a := ws[|ls|], ls[n];
            && a.id in w.requests && w.requests[a.id] == ws[n + 1].requests[a.id]
            && !CreatedAndSettled(ls, w, a.user, a.id)
  {
    RequestStays(site, ls, ws, n + 1, |ls|, ls[n].id);
    CreatorIsFresh(site, ls, ws, |ls|);
  }

  /** A request let in to work is answered 201 exactly when it creates and settles. */
  lemma WorkIsAnswered(site: Site, ls: seq<Label>, ws: seq<World>, n: nat, id: nat, user: UserId)
    requires Trace(site, ls, ws) && n <= |ls|
    requires var w := ws[n]; id in w.requests && w.requests[id].pc.Working? && w.requests[id].user == user
    ensures var w := ws[|ls|];
            (exists r :: Answered201(w, id, user, r)) <==> CreatedAndSettled(ls, w, user, id)
  {
    var w := ws[|ls|];
    WorkIsNeverReplayed(site, ls, ws, n, |ls|, id);
    if r :| Answered201(w, id, user, r) {
      SentIsSettled(site, ls, ws, |ls|, id);
      TraceKeepsInv(site, ls, ws, |ls|);
      assert RequestOk(site, w, id);
    }
    if m :| 0 <= m < |ls| && ls[m] == Settle(id) && CreatedBy(w, user, id) {
      CreatorSends(site, ls, ws, m, |ls|, user);
    }
  }

  /** How a request is received. */
  lemma Arrives(site: Site, ls: seq<Label>, ws: seq<World>, n: nat)
    requires Trace(site, ls, ws) && n < |ls| && ls[n].Arrive?
    ensures var a, w := ls[n], ws[n + 1];
            && a.id in w.requests && w.requests[a.id].user == a.user
            && (w.requests[a.id].pc.Working? || (w.requests[a.id].pc.Answered? && !w.requests[a.id].pc.answer.Sent?))
            && (IsReplay(w.requests[a.id].pc) <==> RecordedBefore(site, ls, ws, n))
  {
    var a, key := ls[n], KeyOf(ls[n].header);
    assert TraceStep(site, ls, ws, n);
    if key.Some? { ReplaysExactlyRecorded(site, ls, ws, n, a.user, key.value, a.body); }
  }

  /** In every run, a request is answered 201 if and only if it is the user's creator and reaches its
      settle, or the user's creator had settled under the same key, with a body of equal
      fingerprint, less than the retention before the request arrived. */
  lemma AnsweredCreatedExactly(site: Site, ls: seq<Label>, ws: seq<World>, n: nat)
    requires Trace(site, ls, ws) && n < |ls| && ls[n].Arrive?
    ensures var w, a := ws[|ls|], ls[n];
            (exists r :: Answered201(w, a.id, a.user, r)) <==>
            CreatedAndSettled(ls, w, a.user, a.id) || RecordedBefore(site, ls, ws, n)
  {
    var w, a := ws[|ls|], ls[n];
    Arrives(site, ls, ws, n);
    var pc := ws[n + 1].requests[a.id].pc;
    if pc.Working? {
      WorkIsAnswered(site, ls, ws, n + 1, a.id, a.user);
    } else {
      AnsweredAtOnce(site, ls, ws, n);
      if pc.answer.Replayed? { assert Answered201(w, a.id, a.user, pc.answer.recorded); }
    }
  }

  // ----- how the promise of a replay fails

  /** A request that reserves its key and passes validation. */
  lemma LetIn(site: Site, ls: seq<Label>, w: World, id: nat, user: UserId, key: string, body: string)
    returns (ls': seq<Label>, w': World)
    requires Exec(site, START, ls) == Some(w) && WellFormed(w.store) && id !in w.requests && key != ""
    requires site.parse(body).Good? && BeginOn(site.policy, w.entries, (user, key), body, w.now).lookup == Reserved
    ensures Exec(site, START, ls') == Some(w')
    ensures var request := Request(user, Some(key), body, w.now, Storing(site.parse(body).input));
            w' == w.(entries := BeginOn(site.policy, w.entries, (user, key), body, w.now).entries,
                     requests := w.requests[id := request])
  {
    var arrive := Arrive(id, user, Some(key), body);
    var arrived := Arrival(site, w, id, user, Some(key), body);
    ExecOneMore(site, START, ls, w, arrive);
    ExecOneMore(site, START, ls + [arrive], arrived, Parse(id));
    ls', w' := ls + [arrive] + [Parse(id)], Moved(arrived, id, Storing(site.parse(body).input));
  }

  /** One more step, to a known world. */
  lemma Onward(site: Site, ls: seq<Label>, w: World, l: Label, w': World) returns (ls': seq<Label>)
    requires Exec(site, START, ls) == Some(w) && WellFormed(w.store) && Step(site, w, l) == Some(w')
    ensures Exec(site, START, ls') == Some(w')
  {
    ExecOneMore(site, START, ls, w, l);
    ls' := ls + [l];
  }

  /** A request that finds the profile already there is refused and releases its key. */
  lemma TooLate(site: Site, ls: seq<Label>, w: World, id: nat) returns (ls': seq<Label>, w': World)
    requires Exec(site, START, ls) == Some(w) && WellFormed(w.store) && id in w.requests
    requires w.requests[id].pc.Storing? && w.requests[id].user in w.store && w.requests[id].key.Some?
    ensures Exec(site, START, ls') == Some(w')
    ensures w'.now == w.now && w'.store == w.store && w'.creator == w.creator
    ensures w'.requests == w.requests[id := w.requests[id].(pc := Answered(Refused(409)))]
  {
    var failing := Creation(site, w, id, false);
    ls' := Onward(site, ls, w, CreateProfile(id, false), failing);
    w' := Settlement(site, failing, id);
    ls' := Onward(site, ls', failing, Settle(id), w');
  }

  /** The creator dies while it waits, its create takes effect, and the retry with the same key and
      body finds a profile nobody was told of: 409. */
  lemma DeadCreatorBreaksReplay(site: Site, user: UserId, key: string, body: string) returns (ls: seq<Label>)
    requires key != "" && site.parse(body).Good?
    ensures Exec(site, START, ls).Some?
    ensures var w := Exec(site, START, ls).value;
            && CreatedBy(w, user, 0) && 0 in w.requests && w.requests[0].pc == Dead
            && 1 in w.requests && w.requests[1].pc == Answered(Refused(409))
            && w.requests[1].(begun := 0, pc := Dead) == w.requests[0]
  {
    var w;
    ls, w := LetIn(site, [], START, 0, user, key, body);
    var input := site.parse(body).input;
    var died := Moved(w, 0, Detached(input));
    ls := Onward(site, ls, w, Die(0), died);
    var created := Creation(site, died, 0, false);
    ls := Onward(site, ls, died, CreateProfile(0, false), created);
    var later := created.(now := site.policy.reservationTimeout);
    ls := Onward(site, ls, created, Tick(site.policy.reservationTimeout), later);
    ls, w := LetIn(site, ls, later, 1, user, key, body);
    ls, w := TooLate(site, ls, w, 1);
  }

  /** The creator is alive but slow: the retry is let in once the reservation has lapsed and is
      refused with 409, and only then does the creator answer 201. */
  lemma SlowCreatorBreaksReplay(site: Site, user: UserId, key: string, body: string) returns (ls: seq<Label>)
    requires key != "" && site.parse(body).Good?
    ensures Exec(site, START, ls).Some?
    ensures var w := Exec(site, START, ls).value;
            && CreatedBy(w, user, 0) && (exists r :: Answered201(w, 0, user, r))
            && 1 in w.requests && w.requests[1].pc == Answered(Refused(409))
            && w.requests[1].(begun := 0, pc := w.requests[0].pc) == w.requests[0]
  {
    var w;
    ls, w := LetIn(site, [], START, 0, user, key, body);
    var created := Creation(site, w, 0, false);
    ls := Onward(site, ls, w, CreateProfile(0, false), created);
    var later := created.(now := site.policy.reservationTimeout);
    ls := Onward(site, ls, created, Tick(site.policy.reservationTimeout), later);
    ls, w := LetIn(site, ls, later, 1, user, key, body);
    ls, w := TooLate(site, ls, w, 1);
    var answered := Settlement(site, w, 0);
    ls := Onward(site, ls, w, Settle(0), answered);
    assert Answered201(answered, 0, user, w.requests[0].pc.recorded);
  }
}
