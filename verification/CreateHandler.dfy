/** The `create` handler as written, over the two stores it drives, tied to the steps CreateProtocol
    interleaves: run with nothing beside it, it is exactly those steps in a row. */
module CreateHandler {
  import opened Wrappers
  import opened StoreContract
  import opened MemoryStore
  import opened Idempotency
  import opened CreateProtocol
  import EntityTag

  // ----- what one request does to the two stores

  datatype Work = Work(pc: Pc, store: Store)

  /** The work of one request: its outcome, not yet recorded or answered, and the store. */
  function WorkOf(site: Site, store: Store, user: UserId, body: string, now: nat): (work: Work)
    requires WellFormed(store)
    ensures (work.pc.Made? || work.pc.Failing?) && WellFormed(work.store)
  {
    match site.parse(body)
    case Bad(status) => Work(Failing(status), store)
    case Good(input) =>
      var e := Apply(store, Op.Create(user, input, now));
      Work(if e.outcome.Created? then Made(Rendered(site, e.outcome.profile)) else Failing(409), e.store)
  }

  /** What recording or releasing leaves of the table. */
  function Settled(p: Policy, entries: Table, user: UserId, key: Option<string>, body: string, pc: Pc, now: nat): Table
    requires pc.Made? || pc.Failing?
  {
    if key.None? then entries
    else if pc.Made? then FinishOn(p, entries, (user, key.value), body, pc.recorded, now)
    else AbandonOn(entries, (user, key.value))
  }

  function AnswerOf(pc: Pc): Answer
    requires pc.Made? || pc.Failing?
  {
    if pc.Made? then Sent(pc.recorded) else Answer.Refused(pc.status)
  }

  /** The answer to a key that is not free. */
  function AnswerTo(lookup: Lookup): Answer
    requires lookup != Reserved
  {
    match lookup
    case Busy => Answer.Refused(409)
    case BodyMismatch => Answer.Refused(422)
    case Replay(recorded) => Replayed(recorded)
  }

  /** One `POST /profile` that begins, creates and settles at three readings of the clock. */
  datatype Post = Post(user: UserId, header: Option<string>, body: string, begun: nat, created: nat, settled: nat)

  /** A request without a key has nothing to begin. */
  function BegunFor(site: Site, entries: Table, r: Post): Begun {
    var key := KeyOf(r.header);
    if key.None? then Begun(entries, Reserved)
    else BeginOn(site.policy, entries, (r.user, key.value), r.body, r.begun)
  }

  predicate Free(site: Site, entries: Table, r: Post) {
    BegunFor(site, entries, r).lookup == Reserved
  }

  /** The answer, and what both stores hold afterwards. */
  ghost predicate Answers(site: Site, entries: Table, store: Store, r: Post,
                          answer: Answer, entries': Table, store': Store)
    requires WellFormed(store)
  {
    var b := BegunFor(site, entries, r);
    if Free(site, entries, r) then
      var work := WorkOf(site, store, r.user, r.body, r.created);
      && answer == AnswerOf(work.pc) && store' == work.store
      && entries' == Settled(site.policy, b.entries, r.user, KeyOf(r.header), r.body, work.pc, r.settled)
    else
      answer == AnswerTo(b.lookup) && store' == store && entries' == b.entries
  }

  // ----- what the answers say

  /** The entry that stands under the key of a request when it begins. */
  ghost predicate Standing(site: Site, entries: Table, r: Post) {
    && r.header.Some? && r.header.value != "" && (r.user, r.header.value) in entries
    && r.begun < match entries[(r.user, r.header.value)]
                 case InFlight(_, since) => since + site.policy.reservationTimeout
                 case Complete(_, at, _) => at + site.policy.retention
  }

  /** A standing entry answers by itself, and nothing is created: 422 to another body, 409 while its
      request is at work, and its outcome once recorded. */
  lemma StandingEntryAnswers(site: Site, entries: Table, store: Store, r: Post,
                             answer: Answer, entries': Table, store': Store)
    requires WellFormed(store) && Standing(site, entries, r)
    requires Answers(site, entries, store, r, answer, entries', store')
    ensures var e := entries[(r.user, r.header.value)];
            && store' == store
            && answer == if e.fingerprint != site.policy.fingerprint(r.body) then Answer.Refused(422)
                         else if e.InFlight? then Answer.Refused(409) else Replayed(e.recorded)
  {
  }

  /** Otherwise the body decides: a bad one is refused with its status, one of a user with a profile
      with 409, and any other creates the profile it describes, whose rendering is the answer. */
  lemma FreeRequestIsAnswered(site: Site, entries: Table, store: Store, r: Post,
                              answer: Answer, entries': Table, store': Store)
    requires WellFormed(store) && !Standing(site, entries, r)
    requires Answers(site, entries, store, r, answer, entries', store')
    ensures match site.parse(r.body)
            case Bad(status) => answer == Answer.Refused(status) && store' == store
            case Good(input) =>
              if r.user in store then answer == Answer.Refused(409) && store' == store
              else
                && answer == Sent(Recorded(201, site.render(Profile(r.user, input.address, input.phoneNumber, 1)),
                                           Some("\"1\"")))
                && r.user in store' && store' == store[r.user := store'[r.user]] && |store'[r.user]| == 1
                && store'[r.user][0] == Revision(1, input.address, input.phoneNumber, r.created)
  {
    if site.parse(r.body).Good? {
      CreateStoresInput(store, r.user, site.parse(r.body).input, r.created);
      assert EntityTag.CharOf(1) == '1' && EntityTag.Display(1) == "\"1\"";
    }
  }

  /** And then its key holds the outcome if one was created, and nothing otherwise. */
  lemma FreeRequestSettlesKey(site: Site, entries: Table, store: Store, r: Post,
                              answer: Answer, entries': Table, store': Store)
    requires WellFormed(store) && !Standing(site, entries, r)
    requires Answers(site, entries, store, r, answer, entries', store')
    ensures r.header == None || r.header == Some("") ==> entries' == entries
    ensures r.header.Some? && r.header.value != "" ==>
              EntryOf(entries', (r.user, r.header.value)) ==
              match answer
              case Sent(recorded) => Some(Complete(site.policy.fingerprint(r.body), r.settled, recorded))
              case _ => None
  {
  }

  // ----- the handler as a run of the protocol

  /** Every answer of the handler, however long it waits in between, is one of the runs CreateProtocol
      quantifies over: same answer, same stores. */
  lemma AloneIsARun(site: Site, w: World, id: nat, r: Post, answer: Answer, entries: Table, store: Store)
    returns (ls: seq<Label>, w': World)
    requires WellFormed(w.store) && id !in w.requests && r.begun == w.now && r.begun <= r.created <= r.settled
    requires Answers(site, w.entries, w.store, r, answer, entries, store)
    ensures Exec(site, w, ls) == Some(w')
    ensures id in w'.requests && w'.requests[id].pc == Answered(answer) && w'.entries == entries && w'.store == store
  {
    ls, w' := ArrivalIsARun(site, w, id, r);
    if Free(site, w.entries, r) {
      ls, w' := WorkIsARun(site, w, ls, w', id, r);
    }
  }

  lemma ArrivalIsARun(site: Site, w: World, id: nat, r: Post) returns (ls: seq<Label>, w': World)
    requires WellFormed(w.store) && id !in w.requests && r.begun == w.now
    ensures Exec(site, w, ls) == Some(w') && w'.store == w.store && w'.now == w.now && id in w'.requests
    ensures w'.entries == BegunFor(site, w.entries, r).entries
    ensures w'.requests[id] == Request(r.user, KeyOf(r.header), r.body, r.begun,
                                       if Free(site, w.entries, r) then Working
                                       else Answered(AnswerTo(BegunFor(site, w.entries, r).lookup)))
  {
    var arrive := Arrive(id, r.user, r.header, r.body);
    w' := Arrival(site, w, id, r.user, KeyOf(r.header), r.body);
    ExecOneMore(site, w, [], w, arrive);
    ls := [] + [arrive];
  }

  lemma WorkIsARun(site: Site, w: World, ls: seq<Label>, begun: World, id: nat, r: Post)
    returns (ls': seq<Label>, w': World)
    requires WellFormed(w.store) && Exec(site, w, ls) == Some(begun) && WellFormed(begun.store)
    requires begun.now == r.begun <= r.created <= r.settled
    requires id in begun.requests && begun.requests[id] == Request(r.user, KeyOf(r.header), r.body, r.begun, Working)
    ensures Exec(site, w, ls') == Some(w')
    ensures var work := WorkOf(site, begun.store, r.user, r.body, r.created);
            && id in w'.requests && w'.requests[id].pc == Answered(AnswerOf(work.pc)) && w'.store == work.store
            && w'.entries ==
               Settled(site.policy, begun.entries, r.user, KeyOf(r.header), r.body, work.pc, r.settled)
  {
    ls', w' := ls + [Parse(id)], Step(site, begun, Parse(id)).value;
    ExecOneMore(site, w, ls, begun, Parse(id));
    if site.parse(r.body).Good? {
      ls', w' := CreationIsARun(site, w, ls', w', id, r.created);
    }
    ls', w' := SettleIsARun(site, w, ls', w', id, r.settled);
  }

  lemma CreationIsARun(site: Site, w: World, ls: seq<Label>, before: World, id: nat, created: nat)
    returns (ls': seq<Label>, w': World)
    requires WellFormed(w.store) && Exec(site, w, ls) == Some(before) && WellFormed(before.store)
    requires before.now <= created && id in before.requests && before.requests[id].pc.Storing?
    ensures Exec(site, w, ls') == Some(w') && WellFormed(w'.store) && w'.now == created && w'.entries == before.entries
    ensures var r := before.requests[id];
            var e := Apply(before.store, Op.Create(r.user, r.pc.input, created));
            && w'.store == e.store && id in w'.requests
            && w'.requests[id] == r.(pc := if e.outcome.Created? then Made(Rendered(site, e.outcome.profile))
                                           else Failing(409))
  {
    ls', w' := Wait(site, w, ls, before, created);
    ExecOneMore(site, w, ls', w', CreateProfile(id, false));
    ls', w' := ls' + [CreateProfile(id, false)], Creation(site, w', id, false);
  }

  lemma Wait(site: Site, w: World, ls: seq<Label>, before: World, until: nat) returns (ls': seq<Label>, w': World)
    requires WellFormed(w.store) && Exec(site, w, ls) == Some(before) && WellFormed(before.store) && before.now <= until
    ensures Exec(site, w, ls') == Some(w') && w' == before.(now := until)
  {
    ExecOneMore(site, w, ls, before, Tick(until - before.now));
    ls', w' := ls + [Tick(until - before.now)], before.(now := until);
  }

  lemma SettleIsARun(site: Site, w: World, ls: seq<Label>, before: World, id: nat, settled: nat)
    returns (ls': seq<Label>, w': World)
    requires WellFormed(w.store) && Exec(site, w, ls) == Some(before) && WellFormed(before.store)
    requires before.now <= settled && id in before.requests
    requires before.requests[id].pc.Made? || before.requests[id].pc.Failing?
    ensures Exec(site, w, ls') == Some(w')
    ensures var r := before.requests[id];
            && id in w'.requests && w'.requests[id].pc == Answered(AnswerOf(r.pc)) && w'.store == before.store
            && w'.entries == Settled(site.policy, before.entries, r.user, r.key, r.body, r.pc, settled)
  {
    ls', w' := Wait(site, w, ls, before, settled);
    ExecOneMore(site, w, ls', w', Settle(id));
    ls', w' := ls' + [Settle(id)], Settlement(site, w', id);
  }

  // ----- the handler

  /** What `finish` promises slot by slot, as one table. */
  lemma FinishedTable(p: Policy, before: Table, after: Table, slot: Slot, body: string, recorded: Recorded, now: nat)
    requires EntryOf(after, slot) == Some(Complete(p.fingerprint(body), now, recorded))
    requires forall other | other != slot :: EntryOf(after, other) == EntryOf(before, other)
    ensures after == FinishOn(p, before, slot, body, recorded, now)
  {
    var finished := FinishOn(p, before, slot, body, recorded, now);
    forall other ensures EntryOf(after, other) == EntryOf(finished, other) { }
    assert forall other :: EntryOf(after, other).Some? <==> other in after;
    assert forall other :: EntryOf(finished, other).Some? <==> other in finished;
  }

  /** The same for `abandon`. */
  lemma AbandonedTable(before: Table, after: Table, slot: Slot)
    requires var e := EntryOf(before, slot); EntryOf(after, slot) == if e.Some? && e.value.InFlight? then None else e
    requires forall other | other != slot :: EntryOf(after, other) == EntryOf(before, other)
    ensures after == AbandonOn(before, slot)
  {
    var abandoned := AbandonOn(before, slot);
    forall other ensures EntryOf(after, other) == EntryOf(abandoned, other) { }
    assert forall other :: EntryOf(after, other).Some? <==> other in after;
    assert forall other :: EntryOf(abandoned, other).Some? <==> other in abandoned;
  }

  class ProfileService {
    const site: Site
    const idempotency: IdempotencyStore
    const profiles: InMemoryProfiles

    constructor (site: Site, idempotency: IdempotencyStore, profiles: InMemoryProfiles)
      ensures this.site == site && this.idempotency == idempotency && this.profiles == profiles
    {
      this.site, this.idempotency, this.profiles := site, idempotency, profiles;
    }

    ghost predicate Valid()
      reads idempotency, profiles, profiles.Repr
    {
      idempotency.policy == site.policy && profiles.Valid() && idempotency !in profiles.Repr
    }

    /** The work of one request: a new profile, ready to be recorded, or the status it fails with. */
    method CreateOnce(user: UserId, body: string, now: nat) returns (pc: Pc)
      requires Valid()
      modifies profiles.Repr
      ensures Valid() && idempotency.entries == old(idempotency.entries)
      ensures Work(pc, profiles.view) == WorkOf(site, old(profiles.view), user, body, now)
      ensures pc.Made? <==> site.parse(body).Good? && user !in old(profiles.view)
      ensures pc.Made? ==>
                var input := site.parse(body).input;
                pc.recorded ==
                Recorded(201, site.render(Profile(user, input.address, input.phoneNumber, 1)), Some("\"1\""))
    {
      var parsed := site.parse(body);
      if parsed.Bad? {
        return Failing(parsed.status);
      }
      var outcome := profiles.Create(user, parsed.input, now);
      if !outcome.Created? {
        return Failing(409);
      }
      CreateStoresInput(old(profiles.view), user, parsed.input, now);
      assert EntityTag.CharOf(1) == '1' && EntityTag.Display(1) == "\"1\"";
      pc := Made(Recorded(201, site.render(outcome.profile), Some(EntityTag.Display(outcome.profile.version))));
    }

    /** Records the outcome under the key or releases it, and answers. */
    method Settle(user: UserId, key: Option<string>, body: string, pc: Pc, now: nat) returns (answer: Answer)
      requires Valid() && (pc.Made? || pc.Failing?)
      modifies idempotency
      ensures Valid() && answer == AnswerOf(pc)
      ensures idempotency.entries == Settled(site.policy, old(idempotency.entries), user, key, body, pc, now)
    {
      ghost var before := idempotency.entries;
      if pc.Made? {
        if key.Some? {
          idempotency.Finish(user, key.value, body, pc.recorded, now);
          FinishedTable(site.policy, before, idempotency.entries, (user, key.value), body, pc.recorded, now);
        }
        answer := Sent(pc.recorded);
      } else {
        if key.Some? {
          idempotency.Abandon(user, key.value);
          AbandonedTable(before, idempotency.entries, (user, key.value));
        }
        answer := Answer.Refused(pc.status);
      }
    }

    method Create(r: Post) returns (answer: Answer)
      requires Valid() && r.begun <= r.created <= r.settled
      modifies idempotency, profiles.Repr
      ensures Valid()
      ensures Answers(site, old(idempotency.entries), old(profiles.view), r,
                      answer, idempotency.entries, profiles.view)
      ensures answer.Sent? ==>
                && site.parse(r.body).Good? && r.user !in old(profiles.view)
                && var input := site.parse(r.body).input;
                   answer.recorded ==
                   Recorded(201, site.render(Profile(r.user, input.address, input.phoneNumber, 1)), Some("\"1\""))
    {
      var key := if r.header == Some("") then None else r.header;
      if key.Some? {
        var lookup := idempotency.Begin(r.user, key.value, r.body, r.begun);
        match lookup {
          case Reserved =>
          case Busy => return Answer.Refused(409);
          case BodyMismatch => return Answer.Refused(422);
          case Replay(recorded) => return Replayed(recorded);
        }
      }
      var pc := CreateOnce(r.user, r.body, r.created);
      answer := Settle(r.user, key, r.body, pc, r.settled);
    }
  }
}
