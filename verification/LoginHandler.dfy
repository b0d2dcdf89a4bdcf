/** The `login` handler as written, over the permits and the throttle, tied to the steps LoginProtocol
    interleaves: run with nothing beside it, it is exactly those steps in a row. */
module LoginHandler {
  import opened Wrappers
  import opened Throttle
  import P = LoginProtocol

  const UNMATCHABLE: string := "\0throttled\0"

  /** What the handler cannot see into: the credential check, which answers nothing when its blocking
      task fails, and whether a token can be signed. */
  datatype Site = Site(policy: Policy, authenticate: (string, string) -> Option<bool>, signs: string -> bool)

  datatype Login = Login(username: string, password: string, address: Option<Address>)

  /** The verdict on the password an attempt offers: a throttled account's is never tried. */
  function Judgement(site: Site, verdict: Verdict, l: Login): Option<bool> {
    site.authenticate(l.username, if verdict == AccountThrottled then UNMATCHABLE else l.password)
  }

  /** The answer and what the throttle remembers, each status characterised. */
  ghost predicate Answers(site: Site, permits: nat, before: Tables, l: Login, checked: nat, recorded: nat,
                          status: nat, after: Tables)
  {
    var check := CheckOn(site.policy, before, l.username, l.address, checked);
    var judgement := Judgement(site, check.verdict, l);
    var judged := permits > 0 && check.verdict != AddressThrottled;
    && (status == 503 <==> permits == 0)
    && (status == 429 <==> permits > 0 && check.verdict == AddressThrottled)
    && (status == 200 <==> judged && judgement == Some(true) && site.signs(l.username))
    && (status == 401 <==> judged && judgement == Some(false))
    && (status == 500 <==> judged && (judgement.None? || (judgement == Some(true) && !site.signs(l.username))))
    && status in {200, 401, 429, 500, 503}
    && after == if permits == 0 then before
                else if !judged || judgement.None? then check.tables
                else if judgement.value then SucceedOn(check.tables, l.username)
                else FailOn(site.policy, check.tables, l.username, l.address, recorded)
  }

  class AuthService {
    const site: Site
    var hashPermits: nat
    const throttle: LoginThrottle

    constructor (site: Site, hashPermits: nat, throttle: LoginThrottle)
      ensures this.site == site && this.hashPermits == hashPermits && this.throttle == throttle
    {
      this.site, this.hashPermits, this.throttle := site, hashPermits, throttle;
    }

    /** A login succeeds exactly when a permit is free, the address is not throttled, the offered
        password is right and the token can be signed; the permit always comes back. When nobody
        holds the unmatchable password, that takes both limits not reached and the caller's own. */
    method Login(l: Login, checked: nat, recorded: nat) returns (status: nat)
      requires throttle.policy == site.policy
      modifies this, throttle.byAccount, throttle.byAddress
      ensures hashPermits == old(hashPermits)
      ensures Answers(site, old(hashPermits), old(throttle.View()), l, checked, recorded, status, throttle.View())
      ensures site.authenticate(l.username, UNMATCHABLE) != Some(true) ==>
                (status == 200 <==>
                   && old(hashPermits) > 0
                   && CheckOn(site.policy, old(throttle.View()), l.username, l.address, checked).verdict == Allowed
                   && site.authenticate(l.username, l.password) == Some(true) && site.signs(l.username))
    {
      if hashPermits == 0 {
        return 503;
      }
      hashPermits := hashPermits - 1;
      var verdict := throttle.Check(l.username, l.address, checked);
      if verdict == AddressThrottled {
        hashPermits := hashPermits + 1;
        return 429;
      }
      var offered := if verdict == AccountThrottled then UNMATCHABLE else l.password;
      var authenticated := site.authenticate(l.username, offered);
      hashPermits := hashPermits + 1;
      if authenticated.None? {
        return 500;
      }
      if !authenticated.value {
        throttle.RecordFailure(l.username, l.address, recorded);
        return 401;
      }
      throttle.RecordSuccess(l.username);
      status := if site.signs(l.username) then 200 else 500;
    }
  }

  // ----- the handler as a run of the protocol

  /** A run from `w` that has come to `w'`. */
  ghost predicate Runs(p: Policy, w: P.World, ls: seq<P.Label>, w': P.World) {
    P.Exec(p, w, ls) == Some(w')
  }

  lemma Then(p: Policy, w: P.World, ls: seq<P.Label>, before: P.World, l: P.Label, after: P.World)
    requires Runs(p, w, ls, before) && P.Step(p, before, l) == Some(after)
    ensures Runs(p, w, ls + [l], after)
  {
    P.ExecOneMore(p, w, ls, l);
  }

  /** Every login the handler answers, with any time between its check and its record, is one of the
      runs LoginProtocol quantifies over: same answer, same tables, the permit back. */
  lemma AloneIsARun(site: Site, w: P.World, id: nat, l: Login, elapsed: nat, status: nat, after: Tables)
    returns (ls: seq<P.Label>, w': P.World)
    requires id !in w.attempts
    requires Answers(site, w.permits, w.tables, l, w.now, w.now + elapsed, status, after)
    ensures Runs(site.policy, w, ls, w')
    ensures P.At(w', id) == P.Ended(status) && w'.tables == after && w'.permits == w.permits
  {
    var p := site.policy;
    var arrive := P.Arrive(id, l.username, l.address);
    var w1 := P.Step(p, w, arrive).value;
    Then(p, w, [], w, arrive, w1);
    ls, w' := [] + [arrive], w1;
    if w.permits > 0 {
      var w2 := P.Step(p, w1, P.CheckAddress(id)).value;
      Then(p, w, ls, w1, P.CheckAddress(id), w2);
      ls, w' := ls + [P.CheckAddress(id)], w2;
      if CheckOn(p, w.tables, l.username, l.address, w.now).verdict != AddressThrottled {
        var w3 := P.Step(p, w2, P.CheckAccount(id)).value;
        Then(p, w, ls, w2, P.CheckAccount(id), w3);
        ls, w' := FromVerdict(site, w, ls + [P.CheckAccount(id)], w3, id, l, elapsed, status, after);
      }
    }
  }

  /** From the verification on. */
  lemma FromVerdict(site: Site, w: P.World, ls: seq<P.Label>, w3: P.World, id: nat, l: Login, elapsed: nat,
                    status: nat, after: Tables) returns (ls': seq<P.Label>, w': P.World)
    requires Answers(site, w.permits, w.tables, l, w.now, w.now + elapsed, status, after)
    requires Runs(site.policy, w, ls, w3) && P.At(w3, id).Verifying? && w3.now == w.now && w3.permits + 1 == w.permits
    requires w3.attempts[id].username == l.username && w3.attempts[id].address == l.address
    requires var check := CheckOn(site.policy, w.tables, l.username, l.address, w.now);
             check.verdict != AddressThrottled && w3.tables == check.tables
    ensures Runs(site.policy, w, ls', w')
    ensures P.At(w', id) == P.Ended(status) && w'.tables == after && w'.permits == w.permits
  {
    var p := site.policy;
    var judgement := Judgement(site, CheckOn(p, w.tables, l.username, l.address, w.now).verdict, l);
    if judgement.None? {
      w' := P.Step(p, w3, P.Crash(id)).value;
      Then(p, w, ls, w3, P.Crash(id), w');
      ls' := ls + [P.Crash(id)];
    } else {
      var w4 := P.Step(p, w3, P.Verify(id, judgement.value)).value;
      Then(p, w, ls, w3, P.Verify(id, judgement.value), w4);
      ls' := ls + [P.Verify(id, judgement.value)];
      ls', w' := FromJudgement(site, w, ls', w4, id, l, elapsed, judgement.value);
    }
  }

  /** From the verdict on, however long the record takes. */
  lemma FromJudgement(site: Site, w: P.World, ls: seq<P.Label>, w4: P.World, id: nat, l: Login, elapsed: nat,
                      matches: bool) returns (ls': seq<P.Label>, w': P.World)
    requires Runs(site.policy, w, ls, w4) && P.At(w4, id).Judged? && P.At(w4, id).success == matches
    requires w4.attempts[id].username == l.username && w4.attempts[id].address == l.address
    ensures Runs(site.policy, w, ls', w') && w'.permits == w4.permits
    ensures P.At(w', id) == P.Ended(if !matches then 401 else if site.signs(l.username) then 200 else 500)
    ensures w'.tables == if matches then SucceedOn(w4.tables, l.username)
                         else FailOn(site.policy, w4.tables, l.username, l.address, w4.now + elapsed)
  {
    var p := site.policy;
    var w5 := P.Step(p, w4, P.Tick(elapsed)).value;
    Then(p, w, ls, w4, P.Tick(elapsed), w5);
    var record := P.RecordAccount(id, site.signs(l.username));
    w' := P.Step(p, w5, record).value;
    Then(p, w, ls + [P.Tick(elapsed)], w5, record, w');
    ls' := ls + [P.Tick(elapsed)] + [record];
    if !matches {
      var w6 := w';
      w' := P.Step(p, w6, P.RecordAddress(id)).value;
      Then(p, w, ls', w6, P.RecordAddress(id), w');
      ls' := ls' + [P.RecordAddress(id)];
    }
  }
}
