/** What the answers of a create say: the body of every 201 is the rendering of what was sent, and
    every refusal has its cause. */
module CreateAnswers {
  import opened Wrappers
  import opened StoreContract
  import opened Idempotency
  import opened CreateProtocol
  import opened CreateReplay
  import EntityTag

  // ----- the body of a 201

  /** A request at or past its create works on what its own body parses to. */
  ghost predicate ParsedInput(site: Site, r: Request) {
    r.pc.Storing? || r.pc.Detached? ==> site.parse(r.body) == Good(r.pc.input)
  }

  /** A user's first revision holds what the creator's body parses to. */
  ghost predicate FirstIsSent(site: Site, w: World, user: UserId) {
    && user in w.creator && w.creator[user] in w.requests && site.parse(w.requests[w.creator[user]].body).Good?
    && user in w.store && |w.store[user]| > 0
    && var input, first := site.parse(w.requests[w.creator[user]].body).input, w.store[user][0];
       first.version == 1 && first.address == input.address && first.phoneNumber == input.phoneNumber
  }

  ghost predicate SentInputs(site: Site, w: World) {
    && (forall id | id in w.requests :: ParsedInput(site, w.requests[id]))
    && (forall user | user in w.creator :: FirstIsSent(site, w, user))
  }

  lemma StepKeepsParsed(site: Site, w: World, l: Label, id: nat)
    requires WellFormed(w.store) && Step(site, w, l).Some? && id in Step(site, w, l).value.requests
    requires id in w.requests ==> ParsedInput(site, w.requests[id])
    ensures ParsedInput(site, Step(site, w, l).value.requests[id])
  {
  }

  lemma GrowthKeepsFirst(site: Site, w: World, w': World, user: UserId)
    requires Inv(site, w) && Grows(w, w') && FirstIsSent(site, w, user)
    requires w.creator[user] in w'.requests
    requires w'.requests[w.creator[user]].body == w.requests[w.creator[user]].body
    ensures FirstIsSent(site, w', user)
  {
  }

  /** The step that creates a profile stores what its request sent. */
  lemma CreationStoresSent(site: Site, w: World, id: nat)
    requires WellFormed(w.store) && id in w.requests && (w.requests[id].pc.Storing? || w.requests[id].pc.Detached?)
    requires ParsedInput(site, w.requests[id]) && w.requests[id].user !in w.store
    ensures FirstIsSent(site, Creation(site, w, id, false), w.requests[id].user)
  {
    CreateStoresInput(w.store, w.requests[id].user, w.requests[id].pc.input, w.now);
  }

  lemma NewCreator(site: Site, w: World, l: Label, user: UserId)
    requires Inv(site, w) && Step(site, w, l).Some? && user in Step(site, w, l).value.creator && user !in w.creator
    ensures l.CreateProfile? && !l.fault && l.id in w.requests && w.requests[l.id].user == user && user !in w.store
    ensures w.requests[l.id].pc.Storing? || w.requests[l.id].pc.Detached?
  {
  }

  lemma StepKeepsSentInputs(site: Site, w: World, l: Label)
    requires Inv(site, w) && SentInputs(site, w) && Step(site, w, l).Some?
    ensures SentInputs(site, Step(site, w, l).value)
  {
    var w' := Step(site, w, l).value;
    StepKeepsInv(site, w, l);
    forall id | id in w'.requests ensures ParsedInput(site, w'.requests[id]) {
      StepKeepsParsed(site, w, l, id);
    }
    forall user | user in w'.creator ensures FirstIsSent(site, w', user) {
      if user in w.creator {
        StepKeepsRequest(site, w, l, w.creator[user]);
        GrowthKeepsFirst(site, w, w', user);
      } else {
        NewCreator(site, w, l, user);
        CreationStoresSent(site, w, l.id);
      }
    }
  }

  lemma {:induction false} TraceKeepsSentInputs(site: Site, ls: seq<Label>, ws: seq<World>, n: nat)
    requires Trace(site, ls, ws) && n <= |ls|
    ensures Inv(site, ws[n]) && SentInputs(site, ws[n])
  {
    TraceKeepsInv(site, ls, ws, n);
    if n > 0 {
      TraceKeepsSentInputs(site, ls, ws, n - 1);
      assert TraceStep(site, ls, ws, n - 1);
      StepKeepsSentInputs(site, ws[n - 1], ls[n - 1]);
    }
  }

  lemma FirstRendered(site: Site, w: World, user: UserId)
    requires Inv(site, w) && FirstIsSent(site, w, user)
    ensures var input := site.parse(w.requests[w.creator[user]].body).input;
            TheOutcome(site, w.store, user) ==
            Recorded(201, site.render(Profile(user, input.address, input.phoneNumber, 1)), Some("\"1\""))
  {
    assert EntityTag.CharOf(1) == '1' && EntityTag.Display(1) == "\"1\"";
  }

  /** In every run, every 201 of a user, fresh or replayed, is the rendering of the profile the
      creating request sent, at version 1 and with the tag of that version. */
  lemma CreatedBodyIsWhatWasSent(site: Site, ls: seq<Label>, id: nat, user: UserId, recorded: Recorded)
    requires Exec(site, START, ls).Some? && Answered201(Exec(site, START, ls).value, id, user, recorded)
    ensures var w := Exec(site, START, ls).value;
            && user in w.creator && w.creator[user] in w.requests
            && var parsed := site.parse(w.requests[w.creator[user]].body);
               && parsed.Good?
               && recorded.status == 201 && recorded.etag == Some("\"1\"")
               && recorded.body ==
                  site.render(Profile(user, parsed.input.address, parsed.input.phoneNumber, 1))
  {
    var ws := RunHasTrace(site, ls);
    TraceKeepsSentInputs(site, ls, ws, |ls|);
    var w := ws[|ls|];
    assert RequestOk(site, w, id);
    FirstRendered(site, w, user);
  }

  // ----- the cause of a refusal

  /** The status a request is refused with, or will be once it settles. */
  function Refusal(pc: Pc): Option<nat> {
    match pc
    case Failing(status) => Some(status)
    case Answered(Refused(status)) => Some(status)
    case _ => None
  }

  /** The entry that stands under a key, if any. */
  ghost predicate StandsUnder(site: Site, w: World, user: UserId, key: string, e: Entry) {
    && (user, key) in w.entries && w.entries[(user, key)] == e
    && w.now < match e
               case InFlight(_, since) => since + site.policy.reservationTimeout
               case Complete(_, at, _) => at + site.policy.retention
  }

  /** A step that refuses a request, and why: the key is held (409) or was used for another body (422),
      the body does not parse (its own status), the user has a profile (409), the store failed (500). */
  ghost predicate Refuses(site: Site, w: World, l: Label, id: nat, status: nat)
  {
    match l
    case Arrive(i, user, header, body) =>
      && i == id && header.Some? && header.value != ""
      && exists e :: StandsUnder(site, w, user, header.value, e) &&
           (if e.fingerprint == site.policy.fingerprint(body) then e.InFlight? && status == 409 else status == 422)
    case Parse(i) => i == id && id in w.requests && site.parse(w.requests[id].body) == Bad(status)
    case CreateProfile(i, fault) =>
      && i == id && id in w.requests
      && (if fault then status == 500 else status == 409 && w.requests[id].user in w.store)
    case _ => false
  }

  lemma ArrivalRefuses(site: Site, w: World, l: Label, status: nat)
    requires l.Arrive? && l.id !in w.requests
    requires var w' := Arrival(site, w, l.id, l.user, KeyOf(l.header), l.body);
             l.id in w'.requests && Refusal(w'.requests[l.id].pc) == Some(status)
    ensures Refuses(site, w, l, l.id, status)
  {
    var e := w.entries[(l.user, l.header.value)];
    assert StandsUnder(site, w, l.user, l.header.value, e);
  }

  lemma StepRefuses(site: Site, w: World, l: Label, id: nat, status: nat)
    requires WellFormed(w.store) && Step(site, w, l).Some? && id in Step(site, w, l).value.requests
    requires Refusal(Step(site, w, l).value.requests[id].pc) == Some(status)
    requires id in w.requests ==> Refusal(w.requests[id].pc) != Some(status)
    ensures Refuses(site, w, l, id, status)
  {
    if l.Arrive? { ArrivalRefuses(site, w, l, status); }
  }

  /** In every run, every refusal has its cause at one step of the run. */
  lemma {:induction false} RefusalHasCause(site: Site, ls: seq<Label>, ws: seq<World>, k: nat, id: nat, status: nat)
    requires Trace(site, ls, ws) && k <= |ls| && id in ws[k].requests
    requires Refusal(ws[k].requests[id].pc) == Some(status)
    ensures exists n :: 0 <= n < k && Refuses(site, ws[n], ls[n], id, status)
  {
    if k > 0 {
      assert TraceStep(site, ls, ws, k - 1);
      if id in ws[k - 1].requests && Refusal(ws[k - 1].requests[id].pc) == Some(status) {
        RefusalHasCause(site, ls, ws, k - 1, id, status);
      } else {
        StepRefuses(site, ws[k - 1], ls[k - 1], id, status);
      }
    }
  }

  // ----- what settling leaves under the key

  /** A refused request is answered with its status and frees its key: a corrected retry is let in,
      unless an outcome is recorded there, which answers as before. */
  lemma RefusedFreesKey(site: Site, w: World, id: nat, retry: string, later: nat)
    requires id in w.requests && w.requests[id].pc.Failing? && w.requests[id].key.Some?
    ensures var r, w' := w.requests[id], Settlement(site, w, id);
            var slot := (r.user, r.key.value);
            && id in w'.requests && w'.requests[id].pc == Answered(Refused(r.pc.status))
            && (forall other | other != slot :: EntryOf(w'.entries, other) == EntryOf(w.entries, other))
            && BeginOn(site.policy, w'.entries, slot, retry, later).lookup ==
               if slot in w.entries && w.entries[slot].Complete?
                  && later < w.entries[slot].at + site.policy.retention
               then (if w.entries[slot].fingerprint == site.policy.fingerprint(retry)
                     then Replay(w.entries[slot].recorded) else BodyMismatch)
               else Reserved
  {
  }

  /** A created outcome is answered and, within the retention, replayed to every equal body. */
  lemma CreatedHoldsKey(site: Site, w: World, id: nat, retry: string, later: nat)
    requires id in w.requests && w.requests[id].pc.Made? && w.requests[id].key.Some?
    requires w.now <= later < w.now + site.policy.retention
    ensures var r, w' := w.requests[id], Settlement(site, w, id);
            var slot := (r.user, r.key.value);
            && id in w'.requests && w'.requests[id].pc == Answered(Sent(r.pc.recorded))
            && (forall other | other != slot :: EntryOf(w'.entries, other) == EntryOf(w.entries, other))
            && BeginOn(site.policy, w'.entries, slot, retry, later).lookup ==
               if site.policy.fingerprint(r.body) == site.policy.fingerprint(retry) then Replay(r.pc.recorded)
               else BodyMismatch
  {
  }

  /** A request without a key, or with an empty one, is always let in; it neither begins nor records. */
  lemma NoKeyNoEntry(site: Site, w: World, id: nat, user: UserId, header: Option<string>, body: string)
    requires header == None || header == Some("")
    ensures var w' := Arrival(site, w, id, user, KeyOf(header), body);
            && w'.entries == w.entries
            && w'.requests == w.requests[id := Request(user, None, body, w.now, Working)]
  {
  }

  lemma NoKeyNoRecord(site: Site, w: World, id: nat)
    requires id in w.requests && (w.requests[id].pc.Made? || w.requests[id].pc.Failing?) && w.requests[id].key.None?
    ensures Settlement(site, w, id).entries == w.entries
  {
  }
}
