/** `POST /profile` under any number of overlapping requests: reserve the key, create once, then
    record or release. Reservations may lapse under a slow request, a request may release a key
    another has since reserved, handlers may die while they wait, and a create already handed to
    the blocking pool still takes effect after its handler died. */
module CreateProtocol {
  import opened Wrappers
  import opened StoreContract
  import opened Idempotency
  import EntityTag

  /** A body that does not parse or validate is answered with its status. */
  datatype Parsed = Bad(status: nat) | Good(input: ProfileInput)

  /** Parsing, rendering and the key policy, all fixed. */
  datatype Site = Site(policy: Policy, parse: string -> Parsed, render: Profile -> string)

  datatype Answer = Sent(recorded: Recorded) | Replayed(recorded: Recorded) | Refused(status: nat)

  datatype Pc =
    | Working                       // key reserved (or none given), body not parsed yet
    | Storing(input: ProfileInput)  // about to create, or waiting for the create
    | Detached(input: ProfileInput) // handler died, its create is still queued
    | Made(recorded: Recorded)      // created and rendered, not recorded or answered yet
    | Failing(status: nat)          // create_once failed, key not released yet
    | Answered(answer: Answer)
    | Dead

  datatype Request = Request(user: UserId, key: Option<string>, body: string, begun: nat, pc: Pc)

  /** `creator` remembers which request created each profile. */
  datatype World = World(now: nat, entries: Table, store: Store, requests: map<nat, Request>,
                         creator: map<UserId, nat>)

  const START := World(0, map[], map[], map[], map[])

  datatype Label =
    | Tick(elapsed: nat)
    | Arrive(id: nat, user: UserId, header: Option<string>, body: string)
    | Parse(id: nat)
    | CreateProfile(id: nat, fault: bool)
    | Settle(id: nat)
    | Die(id: nat)
    | OtherPut(user: UserId, expected: Version, input: ProfileInput)

  /** An empty header is no key. */
  function KeyOf(header: Option<string>): Option<string> {
    if header == Some("") then None else header
  }

  function Moved(w: World, id: nat, pc: Pc): World
    requires id in w.requests
  {
    w.(requests := w.requests[id := w.requests[id].(pc := pc)])
  }

  function Rendered(site: Site, p: Profile): Recorded {
    Recorded(201, site.render(p), Some(EntityTag.Display(p.version)))
  }

  ghost function Step(site: Site, w: World, l: Label): Option<World>
    requires WellFormed(w.store)
  {
    match l
    case Tick(elapsed) => Some(w.(now := w.now + elapsed))
    case OtherPut(user, expected, input) =>
      Some(w.(store := Apply(w.store, Put(user, expected, input, w.now)).store))
    case Arrive(id, user, header, body) =>
      if id in w.requests then None else Some(Arrival(site, w, id, user, KeyOf(header), body))
    case Parse(id) =>
      if id in w.requests && w.requests[id].pc.Working? then
        Some(Moved(w, id, match site.parse(w.requests[id].body)
                          case Bad(status) => Failing(status)
                          case Good(input) => Storing(input)))
      else None
    case CreateProfile(id, fault) =>
      if id in w.requests && (w.requests[id].pc.Storing? || w.requests[id].pc.Detached?) then
        Some(Creation(site, w, id, fault))
      else None
    case Settle(id) =>
      if id in w.requests && (w.requests[id].pc.Made? || w.requests[id].pc.Failing?) then
        Some(Settlement(site, w, id))
      else None
    case Die(id) =>
      if id in w.requests && Active(w.requests[id].pc) && !w.requests[id].pc.Detached? then
        var pc := w.requests[id].pc;
        Some(Moved(w, id, if pc.Storing? then Detached(pc.input) else Dead))
      else None
  }

  function Arrival(site: Site, w: World, id: nat, user: UserId, key: Option<string>, body: string): World {
    match key
    case None => w.(requests := w.requests[id := Request(user, None, body, w.now, Working)])
    case Some(k) =>
      var b := BeginOn(site.policy, w.entries, (user, k), body, w.now);
      var pc := match b.lookup
                case Reserved => Working
                case Busy => Answered(Refused(409))
                case BodyMismatch => Answered(Refused(422))
                case Replay(recorded) => Answered(Replayed(recorded));
      w.(entries := b.entries, requests := w.requests[id := Request(user, key, body, w.now, pc)])
  }

  /** `profiles.create`, which may fail without effect; a dead handler learns nothing of it. */
  function Creation(site: Site, w: World, id: nat, fault: bool): World
    requires WellFormed(w.store) && id in w.requests
    requires w.requests[id].pc.Storing? || w.requests[id].pc.Detached?
  {
    var r := w.requests[id];
    if fault then Moved(w, id, if r.pc.Detached? then Dead else Failing(500))
    else
      var e := Apply(w.store, Create(r.user, r.pc.input, w.now));
      if e.outcome.Created? then
        var made := Moved(w, id, if r.pc.Detached? then Dead else Made(Rendered(site, e.outcome.profile)));
        made.(store := e.store, creator := w.creator[r.user := id])
      else Moved(w, id, if r.pc.Detached? then Dead else Failing(409))
  }

  /** Record or release the key, and answer. */
  function Settlement(site: Site, w: World, id: nat): World
    requires id in w.requests && (w.requests[id].pc.Made? || w.requests[id].pc.Failing?)
  {
    var r := w.requests[id];
    match r.pc
    case Made(recorded) =>
      var settled := Moved(w, id, Answered(Sent(recorded)));
      if r.key.None? then settled
      else settled.(entries := FinishOn(site.policy, w.entries, (r.user, r.key.value), r.body, recorded, w.now))
    case Failing(status) =>
      var settled := Moved(w, id, Answered(Refused(status)));
      if r.key.None? then settled
      else settled.(entries := AbandonOn(w.entries, (r.user, r.key.value)))
  }

  /** A request that still may create, record or release. */
  predicate Active(pc: Pc) {
    !pc.Answered? && !pc.Dead?
  }

  ghost function Exec(site: Site, w: World, ls: seq<Label>): Option<World>
    requires WellFormed(w.store)
  {
    if ls == [] then Some(w)
    else
      var n := |ls| - 1;
      match Exec(site, w, ls[..n])
      case None => None
      case Some(w') => if WellFormed(w'.store) then Step(site, w', ls[n]) else None
  }

  lemma ExecOneMore(site: Site, w: World, ls: seq<Label>, before: World, l: Label)
    requires WellFormed(w.store) && Exec(site, w, ls) == Some(before) && WellFormed(before.store)
    ensures Exec(site, w, ls + [l]) == Step(site, before, l)
  {
    assert (ls + [l])[..|ls|] == ls;
  }

  // ----- the invariant

  /** The one outcome a user's create can have: the first revision, rendered. */
  ghost function TheOutcome(site: Site, s: Store, user: UserId): Recorded
    requires WellFormed(s) && user in s
  {
    Rendered(site, Project(user, s[user][0]))
  }

  ghost predicate CreatedBy(w: World, user: UserId, id: nat) {
    user in w.creator && w.creator[user] == id
  }

  /** The creating request has answered, with that outcome. */
  ghost predicate OutcomeSent(site: Site, w: World, user: UserId, recorded: Recorded)
    requires WellFormed(w.store)
  {
    && user in w.store && recorded == TheOutcome(site, w.store, user)
    && user in w.creator && w.creator[user] in w.requests
    && w.requests[w.creator[user]].pc == Answered(Sent(recorded))
  }

  ghost predicate RequestOk(site: Site, w: World, id: nat)
    requires WellFormed(w.store) && id in w.requests
  {
    var r := w.requests[id];
    && (r.pc.Made? ==>
          && r.user in w.store && r.pc.recorded == TheOutcome(site, w.store, r.user)
          && CreatedBy(w, r.user, id))
    && (r.pc.Answered? && r.pc.answer.Sent? ==>
          OutcomeSent(site, w, r.user, r.pc.answer.recorded) && CreatedBy(w, r.user, id))
    && (r.pc.Answered? && r.pc.answer.Replayed? ==> OutcomeSent(site, w, r.user, r.pc.answer.recorded))
  }

  ghost predicate EntryOk(site: Site, w: World, slot: Slot)
    requires WellFormed(w.store) && slot in w.entries
  {
    w.entries[slot].Complete? ==> OutcomeSent(site, w, slot.0, w.entries[slot].recorded)
  }

  ghost predicate Inv(site: Site, w: World) {
    && WellFormed(w.store)
    && w.creator.Keys == w.store.Keys
    && (forall u | u in w.creator :: w.creator[u] in w.requests && w.requests[w.creator[u]].user == u)
    && (forall id | id in w.requests :: RequestOk(site, w, id))
    && (forall slot | slot in w.entries :: EntryOk(site, w, slot))
  }

  /** What no step takes away: first revisions, creators, answers, deaths. */
  ghost predicate Grows(w: World, w': World) {
    && w.now <= w'.now
    && (forall u | u in w.store ::
          u in w'.store && |w.store[u]| > 0 && |w'.store[u]| > 0 && w'.store[u][0] == w.store[u][0])
    && (forall u | u in w.creator :: u in w'.creator && w'.creator[u] == w.creator[u])
    && (forall id | id in w.requests :: id in w'.requests && w'.requests[id].user == w.requests[id].user)
    && (forall id | id in w.requests && !Active(w.requests[id].pc) :: w'.requests[id] == w.requests[id])
  }

  lemma OutcomeStaysSent(site: Site, w: World, w': World, user: UserId, recorded: Recorded)
    requires Inv(site, w) && WellFormed(w'.store) && Grows(w, w') && OutcomeSent(site, w, user, recorded)
    ensures OutcomeSent(site, w', user, recorded)
  {
  }

  /** A step that only grows the world keeps the invariant if the request it moves and the entries
      it writes are in order. */
  lemma GrowthKeepsInv(site: Site, w: World, w': World, moved: set<nat>)
    requires Inv(site, w) && WellFormed(w'.store) && Grows(w, w')
    requires w'.requests.Keys == w.requests.Keys + moved
    requires forall id | id in w.requests && id !in moved :: w'.requests[id] == w.requests[id]
    requires forall id | id in moved :: RequestOk(site, w', id)
    requires forall slot | slot in w'.entries ::
               (slot in w.entries && w'.entries[slot] == w.entries[slot]) || EntryOk(site, w', slot)
    requires w'.creator.Keys == w'.store.Keys
    requires forall u | u in w'.creator :: w'.creator[u] in w'.requests && w'.requests[w'.creator[u]].user == u
    ensures Inv(site, w')
  {
    forall id | id in w'.requests ensures RequestOk(site, w', id) {
      if id !in moved {
        assert RequestOk(site, w, id);
        var r := w.requests[id];
        if r.pc.Answered? && !r.pc.answer.Refused? { OutcomeStaysSent(site, w, w', r.user, r.pc.answer.recorded); }
      }
    }
    forall slot | slot in w'.entries ensures EntryOk(site, w', slot) {
      if slot in w.entries && w'.entries[slot] == w.entries[slot] {
        assert EntryOk(site, w, slot);
        if w.entries[slot].Complete? { OutcomeStaysSent(site, w, w', slot.0, w.entries[slot].recorded); }
      }
    }
  }

  /** An arrival adds its request, answered or let in, and at most a reservation. */
  lemma ArrivalFrame(site: Site, w: World, id: nat, user: UserId, key: Option<string>, body: string)
    requires WellFormed(w.store) && id !in w.requests
    ensures var w' := Arrival(site, w, id, user, key, body);
            && w'.store == w.store && w'.creator == w.creator && w'.requests.Keys == w.requests.Keys + {id}
            && (forall i | i in w.requests :: w'.requests[i] == w.requests[i])
            && (forall slot | slot in w'.entries ::
                  w'.entries[slot].InFlight? || (slot in w.entries && w'.entries[slot] == w.entries[slot]))
            && Grows(w, w')
  {
  }

  /** And what it is answered with was recorded. */
  lemma ArrivalOk(site: Site, w: World, id: nat, user: UserId, key: Option<string>, body: string)
    requires Inv(site, w) && id !in w.requests
    ensures var w' := Arrival(site, w, id, user, key, body); id in w'.requests && RequestOk(site, w', id)
  {
    if key.Some? && (user, key.value) in w.entries { assert EntryOk(site, w, (user, key.value)); }
  }

  lemma ArrivalKeepsInv(site: Site, w: World, id: nat, user: UserId, key: Option<string>, body: string)
    requires Inv(site, w) && id !in w.requests
    ensures Grows(w, Arrival(site, w, id, user, key, body)) && Inv(site, Arrival(site, w, id, user, key, body))
  {
    var w' := Arrival(site, w, id, user, key, body);
    ArrivalFrame(site, w, id, user, key, body);
    ArrivalOk(site, w, id, user, key, body);
    forall slot | slot in w'.entries
      ensures (slot in w.entries && w'.entries[slot] == w.entries[slot]) || EntryOk(site, w', slot)
    {
    }
    GrowthKeepsInv(site, w, w', {id});
  }

  lemma MoveKeepsInv(site: Site, w: World, id: nat, pc: Pc)
    requires Inv(site, w) && id in w.requests && Active(w.requests[id].pc) && !pc.Made?
    requires pc.Answered? ==> pc.answer.Refused?
    ensures Grows(w, Moved(w, id, pc)) && Inv(site, Moved(w, id, pc))
  {
    GrowthKeepsInv(site, w, Moved(w, id, pc), {id});
  }

  lemma FirstCreationFrame(site: Site, w: World, id: nat)
    requires WellFormed(w.store) && id in w.requests && w.requests[id].user !in w.store
    requires w.requests[id].pc.Storing? || w.requests[id].pc.Detached?
    ensures var r, w' := w.requests[id], Creation(site, w, id, false);
            && w'.now == w.now && w'.entries == w.entries
            && w'.store == w.store[r.user := [MakeRevision(INITIAL, r.pc.input, w.now)]]
            && w'.creator == w.creator[r.user := id]
            && w'.requests == w.requests[id := w'.requests[id]] && w'.requests[id].user == r.user
  {
  }

  lemma FirstCreationGrows(site: Site, w: World, id: nat)
    requires Inv(site, w) && id in w.requests && (w.requests[id].pc.Storing? || w.requests[id].pc.Detached?)
    requires w.requests[id].user !in w.store
    ensures Grows(w, Creation(site, w, id, false))
  {
    FirstCreationFrame(site, w, id);
  }

  lemma FirstCreationOk(site: Site, w: World, id: nat)
    requires Inv(site, w) && id in w.requests && (w.requests[id].pc.Storing? || w.requests[id].pc.Detached?)
    requires w.requests[id].user !in w.store
    ensures var w' := Creation(site, w, id, false); WellFormed(w'.store) && RequestOk(site, w', id)
  {
  }

  lemma FirstCreationKeepsInv(site: Site, w: World, id: nat)
    requires Inv(site, w) && id in w.requests && (w.requests[id].pc.Storing? || w.requests[id].pc.Detached?)
    requires w.requests[id].user !in w.store
    ensures Inv(site, Creation(site, w, id, false))
  {
    FirstCreationFrame(site, w, id);
    FirstCreationGrows(site, w, id);
    FirstCreationOk(site, w, id);
    GrowthKeepsInv(site, w, Creation(site, w, id, false), {id});
  }

  lemma CreationKeepsInv(site: Site, w: World, id: nat, fault: bool)
    requires Inv(site, w) && id in w.requests && (w.requests[id].pc.Storing? || w.requests[id].pc.Detached?)
    ensures Grows(w, Creation(site, w, id, fault)) && Inv(site, Creation(site, w, id, fault))
  {
    if !fault && w.requests[id].user !in w.store {
      FirstCreationGrows(site, w, id);
      FirstCreationKeepsInv(site, w, id);
    } else {
      MoveKeepsInv(site, w, id, Creation(site, w, id, fault).requests[id].pc);
    }
  }

  lemma SendGrows(site: Site, w: World, id: nat)
    requires Inv(site, w) && id in w.requests && w.requests[id].pc.Made?
    ensures var r, w' := w.requests[id], Settlement(site, w, id);
            && w'.store == w.store && w'.creator == w.creator
            && w'.requests == w.requests[id := r.(pc := Answered(Sent(r.pc.recorded)))]
            && Grows(w, w')
            && OutcomeSent(site, w', r.user, r.pc.recorded)
  {
    assert RequestOk(site, w, id);
  }

  lemma SendKeepsInv(site: Site, w: World, id: nat)
    requires Inv(site, w) && id in w.requests && w.requests[id].pc.Made?
    ensures Inv(site, Settlement(site, w, id))
  {
    SendGrows(site, w, id);
    assert RequestOk(site, w, id);
    GrowthKeepsInv(site, w, Settlement(site, w, id), {id});
  }

  lemma ReleaseGrows(site: Site, w: World, id: nat)
    requires Inv(site, w) && id in w.requests && w.requests[id].pc.Failing?
    ensures Grows(w, Settlement(site, w, id))
  {
  }

  /** Releasing drops at most one entry and touches nothing but the released request. */
  lemma ReleaseFrame(site: Site, w: World, id: nat)
    requires id in w.requests && w.requests[id].pc.Failing?
    ensures var w' := Settlement(site, w, id);
            && w'.store == w.store && w'.creator == w.creator
            && w'.requests == w.requests[id := w.requests[id].(pc := Answered(Refused(w.requests[id].pc.status)))]
            && forall slot | slot in w'.entries :: slot in w.entries && w'.entries[slot] == w.entries[slot]
  {
  }

  lemma ReleaseKeepsInv(site: Site, w: World, id: nat)
    requires Inv(site, w) && id in w.requests && w.requests[id].pc.Failing?
    ensures Inv(site, Settlement(site, w, id))
  {
    var w' := Settlement(site, w, id);
    ReleaseGrows(site, w, id);
    ReleaseFrame(site, w, id);
    GrowthKeepsInv(site, w, w', {id});
  }

  lemma StepKeepsInv(site: Site, w: World, l: Label)
    requires Inv(site, w) && Step(site, w, l).Some?
    ensures Grows(w, Step(site, w, l).value) && Inv(site, Step(site, w, l).value)
  {
    match l
    case Tick(_) => GrowthKeepsInv(site, w, Step(site, w, l).value, {});
    case OtherPut(user, expected, input) =>
      ApplyExtends(w.store, Put(user, expected, input, w.now));
      PutIsCompareAndSwap(w.store, user, expected, input, w.now);
      GrowthKeepsInv(site, w, Step(site, w, l).value, {});
    case Arrive(id, user, header, body) => ArrivalKeepsInv(site, w, id, user, KeyOf(header), body);
    case Parse(id) => MoveKeepsInv(site, w, id, Step(site, w, l).value.requests[id].pc);
    case CreateProfile(id, fault) => CreationKeepsInv(site, w, id, fault);
    case Settle(id) =>
      if w.requests[id].pc.Made? {
        SendGrows(site, w, id);
        SendKeepsInv(site, w, id);
      } else {
        ReleaseGrows(site, w, id);
        ReleaseKeepsInv(site, w, id);
      }
    case Die(id) => MoveKeepsInv(site, w, id, Step(site, w, l).value.requests[id].pc);
  }

  lemma {:induction false} RunKeepsInv(site: Site, w: World, ls: seq<Label>)
    requires Inv(site, w) && Exec(site, w, ls).Some?
    ensures Inv(site, Exec(site, w, ls).value) && Grows(w, Exec(site, w, ls).value)
  {
    if ls != [] {
      var n := |ls| - 1;
      RunKeepsInv(site, w, ls[..n]);
      StepKeepsInv(site, Exec(site, w, ls[..n]).value, ls[n]);
    }
  }

  // ----- exactly once

  /** The outcome a request has been answered with, if that answer is a 201. */
  ghost predicate Answered201(w: World, id: nat, user: UserId, recorded: Recorded) {
    && id in w.requests && w.requests[id].user == user
    && (w.requests[id].pc == Answered(Sent(recorded)) || w.requests[id].pc == Answered(Replayed(recorded)))
  }

  /** In every run, whatever lapses, is released, or dies: at most one request per user ever holds
      or has sent a fresh outcome, so `finish` runs at most once per user; every 201 a user gets,
      fresh or replayed, under whatever key, is the same response; and that response is the first
      revision of the stored profile with the tag `"1"`. */
  lemma CreatedExactlyOnce(site: Site, ls: seq<Label>)
    requires Exec(site, START, ls).Some?
    ensures var w := Exec(site, START, ls).value;
            && WellFormed(w.store)
            && (forall i, j | i in w.requests && j in w.requests && w.requests[i].user == w.requests[j].user
                  && Fresh(w.requests[i].pc) && Fresh(w.requests[j].pc) :: i == j)
            && (forall i, user, r | Answered201(w, i, user, r) ::
                  && user in w.store && r == TheOutcome(site, w.store, user)
                  && r.status == 201 && r.etag == Some("\"1\""))
  {
    RunKeepsInv(site, START, ls);
    var w := Exec(site, START, ls).value;
    forall i, user, r | Answered201(w, i, user, r)
      ensures user in w.store && r == TheOutcome(site, w.store, user) && r.etag == Some("\"1\"")
    {
      assert RequestOk(site, w, i);
      assert GoodLog(w.store[user]);
      assert EntityTag.CharOf(1) == '1' && EntityTag.Display(1) == "\"1\"";
    }
    forall i, j | i in w.requests && j in w.requests && w.requests[i].user == w.requests[j].user
                  && Fresh(w.requests[i].pc) && Fresh(w.requests[j].pc)
      ensures i == j
    {
      assert RequestOk(site, w, i) && RequestOk(site, w, j);
    }
  }

  predicate Fresh(pc: Pc) {
    pc.Made? || (pc.Answered? && pc.answer.Sent?)
  }

  /** And it never changes: what a user was once told stays the only outcome in every continuation,
      and the creating request stays the only one. */
  lemma OutcomeIsForever(site: Site, ls: seq<Label>, more: seq<Label>)
    requires Exec(site, START, ls).Some? && WellFormed(Exec(site, START, ls).value.store)
    requires Exec(site, Exec(site, START, ls).value, more).Some?
    ensures var w, w' := Exec(site, START, ls).value, Exec(site, Exec(site, START, ls).value, more).value;
            && WellFormed(w'.store)
            && (forall user | user in w.store ::
                  user in w'.store && TheOutcome(site, w'.store, user) == TheOutcome(site, w.store, user))
            && (forall user | user in w.creator :: user in w'.creator && w'.creator[user] == w.creator[user])
  {
    RunKeepsInv(site, START, ls);
    RunKeepsInv(site, Exec(site, START, ls).value, more);
  }

  // ----- replay stability

  lemma StepKeepsComplete(site: Site, w: World, l: Label, slot: Slot)
    requires Inv(site, w) && Step(site, w, l).Some? && slot in w.entries && w.entries[slot].Complete?
    requires w.now < w.entries[slot].at + site.policy.retention
    ensures var w' := Step(site, w, l).value; slot in w'.entries && w'.entries[slot] == w.entries[slot]
  {
    assert EntryOk(site, w, slot);
    if l.Settle? { assert RequestOk(site, w, l.id); }
  }

  lemma {:induction false} RunKeepsComplete(site: Site, w: World, ls: seq<Label>, slot: Slot)
    requires Inv(site, w) && Exec(site, w, ls).Some? && slot in w.entries && w.entries[slot].Complete?
    requires Exec(site, w, ls).value.now < w.entries[slot].at + site.policy.retention
    ensures var w' := Exec(site, w, ls).value; slot in w'.entries && w'.entries[slot] == w.entries[slot]
  {
    if ls != [] {
      var n := |ls| - 1;
      RunKeepsInv(site, w, ls[..n]);
      var before := Exec(site, w, ls[..n]).value;
      StepKeepsInv(site, before, ls[n]);
      RunKeepsComplete(site, w, ls[..n], slot);
      StepKeepsComplete(site, before, ls[n], slot);
    }
  }

  /** Replay stability: once an outcome is recorded under a key, every request that presents the key
      within the retention is answered from it, whatever other requests did meanwhile: the same
      outcome for a body of equal fingerprint, 422 for any other. */
  lemma RecordedOutcomeIsReplayed(site: Site, ls: seq<Label>, more: seq<Label>, id: nat, user: UserId, key: string,
                                  body: string)
    requires key != "" && Exec(site, START, ls).Some? && WellFormed(Exec(site, START, ls).value.store)
    requires var w := Exec(site, START, ls).value; (user, key) in w.entries && w.entries[(user, key)].Complete?
    requires var w := Exec(site, START, ls).value;
             && Exec(site, w, more).Some?
             && id !in Exec(site, w, more).value.requests
             && Exec(site, w, more).value.now < w.entries[(user, key)].at + site.policy.retention
    ensures var w := Exec(site, START, ls).value;
            var e := w.entries[(user, key)];
            var w' := Arrival(site, Exec(site, w, more).value, id, user, Some(key), body);
            w'.requests[id].pc == Answered(
              if site.policy.fingerprint(body) == e.fingerprint then Replayed(e.recorded) else Refused(422))
  {
    RunKeepsInv(site, START, ls);
    var w := Exec(site, START, ls).value;
    RunKeepsComplete(site, w, more, (user, key));
  }

  // ----- reservation exclusion

  ghost predicate Holds(w: World, id: nat, slot: Slot) {
    && id in w.requests && Active(w.requests[id].pc)
    && w.requests[id].key.Some? && (w.requests[id].user, w.requests[id].key.value) == slot
  }

  /** No request works on a key for as long as the reservation timeout. */
  ghost predicate Timely(site: Site, w: World) {
    forall id | id in w.requests && Active(w.requests[id].pc) && w.requests[id].key.Some? ::
      w.now < w.requests[id].begun + site.policy.reservationTimeout
  }

  ghost predicate TimelyRun(site: Site, ls: seq<Label>) {
    forall n | 0 <= n <= |ls| :: Exec(site, START, ls[..n]).Some? && Timely(site, Exec(site, START, ls[..n]).value)
  }

  /** Each working request still owns the reservation of its key. */
  ghost predicate Exclusive(site: Site, w: World) {
    && (forall id, slot | Holds(w, id, slot) :: slot in w.entries &&
          w.entries[slot] == InFlight(site.policy.fingerprint(w.requests[id].body), w.requests[id].begun))
    && (forall i, j, slot | Holds(w, i, slot) && Holds(w, j, slot) :: i == j)
  }

  lemma ArrivalKeepsExclusive(site: Site, w: World, id: nat, user: UserId, key: Option<string>, body: string)
    requires Exclusive(site, w) && Timely(site, w) && id !in w.requests
    ensures Exclusive(site, Arrival(site, w, id, user, key, body))
  {
    var w' := Arrival(site, w, id, user, key, body);
    forall i, slot | Holds(w', i, slot)
      ensures slot in w'.entries
      ensures w'.entries[slot] == InFlight(site.policy.fingerprint(w'.requests[i].body), w'.requests[i].begun)
    {
      if i != id { assert Holds(w, i, slot); }
    }
    forall i, j, slot | Holds(w', i, slot) && Holds(w', j, slot) ensures i == j {
      if i != id { assert Holds(w, i, slot); }
      if j != id { assert Holds(w, j, slot); }
    }
  }

  /** Recording or releasing touches only the settled request's own reservation. */
  lemma SettlementKeepsExclusive(site: Site, w: World, id: nat)
    requires Exclusive(site, w) && id in w.requests && (w.requests[id].pc.Made? || w.requests[id].pc.Failing?)
    ensures Exclusive(site, Settlement(site, w, id))
  {
    var w' := Settlement(site, w, id);
    if w.requests[id].key.Some? {
      assert Holds(w, id, (w.requests[id].user, w.requests[id].key.value));
    }
    forall i, slot | Holds(w', i, slot)
      ensures Holds(w, i, slot) && slot in w'.entries
      ensures w'.requests[i] == w.requests[i] && w'.entries[slot] == w.entries[slot]
    {
      assert i != id && Holds(w, i, slot);
    }
  }

  /** Steps that move no request into work and write no entry. */
  lemma QuietStepKeepsExclusive(site: Site, w: World, w': World)
    requires Exclusive(site, w) && w'.entries == w.entries && w'.requests.Keys == w.requests.Keys
    requires forall id | id in w.requests ::
               && w'.requests[id].(pc := w.requests[id].pc) == w.requests[id]
               && (Active(w'.requests[id].pc) ==> Active(w.requests[id].pc))
    ensures Exclusive(site, w')
  {
    forall i, slot | Holds(w', i, slot)
      ensures slot in w'.entries
      ensures w'.entries[slot] == InFlight(site.policy.fingerprint(w'.requests[i].body), w'.requests[i].begun)
    {
      assert Holds(w, i, slot);
    }
    forall i, j, slot | Holds(w', i, slot) && Holds(w', j, slot) ensures i == j {
      assert Holds(w, i, slot) && Holds(w, j, slot);
    }
  }

  lemma StepKeepsExclusive(site: Site, w: World, l: Label)
    requires WellFormed(w.store) && Exclusive(site, w) && Timely(site, w) && Step(site, w, l).Some?
    ensures Exclusive(site, Step(site, w, l).value)
  {
    if l.Arrive? {
      ArrivalKeepsExclusive(site, w, l.id, l.user, KeyOf(l.header), l.body);
    } else if l.Settle? {
      SettlementKeepsExclusive(site, w, l.id);
    } else {
      QuietStepKeepsExclusive(site, w, Step(site, w, l).value);
    }
  }

  /** If every request finishes or releases its key within the reservation timeout, at most one
      request per user and key works at a time, in every interleaving. */
  lemma {:induction false} TimelyRunsAreExclusive(site: Site, ls: seq<Label>)
    requires TimelyRun(site, ls)
    ensures Exec(site, START, ls).Some? && Exclusive(site, Exec(site, START, ls).value)
  {
    assert ls[..|ls|] == ls;
    if ls != [] {
      var n := |ls| - 1;
      assert TimelyRun(site, ls[..n]) by {
        forall k | 0 <= k <= n
          ensures Exec(site, START, ls[..n][..k]).Some? && Timely(site, Exec(site, START, ls[..n][..k]).value)
        {
          assert ls[..n][..k] == ls[..k];
        }
      }
      TimelyRunsAreExclusive(site, ls[..n]);
      StepKeepsExclusive(site, Exec(site, START, ls[..n]).value, ls[n]);
    }
  }

  /** The timeout is exactly where exclusion ends: when a run in which every request was timely takes
      any step, a second request is then let in under a held key if and only if its holder has been
      at it for the reservation timeout. */
  lemma SecondHolderAdmittedExactlyAtTimeout(site: Site, ls: seq<Label>, l: Label, holder: nat, slot: Slot,
                                             body: string)
    requires TimelyRun(site, ls) && Exec(site, START, ls).Some? && WellFormed(Exec(site, START, ls).value.store)
    requires Step(site, Exec(site, START, ls).value, l).Some?
    requires Holds(Step(site, Exec(site, START, ls).value, l).value, holder, slot)
    ensures var w := Step(site, Exec(site, START, ls).value, l).value;
            BeginOn(site.policy, w.entries, slot, body, w.now).lookup == Reserved <==>
            w.requests[holder].begun + site.policy.reservationTimeout <= w.now
  {
    TimelyRunsAreExclusive(site, ls);
    assert ls[..|ls|] == ls;
    StepKeepsExclusive(site, Exec(site, START, ls).value, l);
  }

  /** So two retries can both run: the first is merely slow. */
  lemma SlowHolderIsOverlapped(site: Site, user: UserId, key: string, body: string)
    requires key != ""
    ensures var ls := [Arrive(0, user, Some(key), body), Tick(site.policy.reservationTimeout),
                       Arrive(1, user, Some(key), body)];
            && Exec(site, START, ls).Some?
            && Holds(Exec(site, START, ls).value, 0, (user, key))
            && Holds(Exec(site, START, ls).value, 1, (user, key))
  {
    var a, c := Arrive(0, user, Some(key), body), Arrive(1, user, Some(key), body);
    var b := Tick(site.policy.reservationTimeout);
    assert [a, b, c][..2] == [a, b] && [a, b][..1] == [a] && [a][..0] == [];
    assert Exec(site, START, [a]) == Step(site, START, a);
    assert Exec(site, START, [a, b]).Some?;
  }
}
