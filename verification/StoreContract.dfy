/** The storage contract both backends promise: profiles are projections of append-only
    revision logs, and an update is a compare-and-swap on the version of the newest one. */
module StoreContract {
  import opened Wrappers

  const U64_LIMIT: nat := 0x1_0000_0000_0000_0000

  /** A `u64` counter. */
  type Version = v: nat | v < U64_LIMIT

  const INITIAL: Version := 1

  type UserId = string

  datatype ProfileInput = ProfileInput(address: string, phoneNumber: string)

  datatype Profile = Profile(userId: UserId, address: string, phoneNumber: string, version: Version) {
    function Content(): ProfileInput { ProfileInput(address, phoneNumber) }
  }

  datatype Revision = Revision(version: Version, address: string, phoneNumber: string, recordedAtMs: nat)

  function CheckedNext(v: Version): Option<Version> {
    if v + 1 < U64_LIMIT then Some(v + 1) else None
  }

  function Project(user: UserId, revision: Revision): Profile {
    Profile(user, revision.address, revision.phoneNumber, revision.version)
  }

  function MakeRevision(version: Version, input: ProfileInput, now: nat): Revision {
    Revision(version, input.address, input.phoneNumber, now)
  }

  /** One call on the repository; `now` is the clock reading the call makes. */
  datatype Op =
    | Create(user: UserId, input: ProfileInput, now: nat)
    | Get(user: UserId)
    | Put(user: UserId, expected: Version, input: ProfileInput, now: nat)
    | Audit(user: UserId)

  /** Everything a repository call can answer, over all four calls. */
  datatype Outcome =
    | Created(profile: Profile)
    | AlreadyThere
    | Found(profile: Profile)
    | Absent
    | Applied(profile: Profile)
    | Stale(currentVersion: Version)
    | Missing
    | Log(revisions: seq<Revision>)
    | VersionExhausted
    | BackendFault

  /** Each user's accepted writes, oldest first. */
  type Store = map<UserId, seq<Revision>>

  datatype Effect = Effect(store: Store, outcome: Outcome)

  /** Versions are exactly 1..n, with no gap. */
  ghost predicate GoodLog(log: seq<Revision>) {
    |log| > 0 && forall i | 0 <= i < |log| :: log[i].version == i + 1
  }

  ghost predicate WellFormed(s: Store) {
    forall u | u in s :: GoodLog(s[u])
  }

  function Last(log: seq<Revision>): Revision
    requires |log| > 0
  {
    log[|log| - 1]
  }

  /** The atomic specification: what one call does when nothing runs beside it. */
  function Apply(s: Store, op: Op): (e: Effect)
    requires WellFormed(s)
    ensures WellFormed(e.store)
  {
    match op
    case Create(u, input, now) =>
      if u in s then Effect(s, AlreadyThere)
      else
        var first := MakeRevision(INITIAL, input, now);
        Effect(s[u := [first]], Created(Project(u, first)))
    case Get(u) =>
      Effect(s, if u in s then Found(Project(u, Last(s[u]))) else Absent)
    case Put(u, expected, input, now) =>
      if u !in s then Effect(s, Missing)
      else
        var current := Last(s[u]).version;
        if current != expected then Effect(s, Stale(current))
        else (
          match CheckedNext(current)
          case None => Effect(s, VersionExhausted)
          case Some(next) =>
            var applied := MakeRevision(next, input, now);
            Effect(s[u := s[u] + [applied]], Applied(Project(u, applied)))
        )
    case Audit(u) =>
      Effect(s, Log(if u in s then s[u] else []))
  }

  /** The store after a whole sequence of calls. */
  ghost function After(s: Store, ops: seq<Op>): (s': Store)
    requires WellFormed(s)
    ensures WellFormed(s')
  {
    if ops == [] then s else Apply(After(s, ops[..|ops| - 1]), ops[|ops| - 1]).store
  }

  /** What the `i`-th call of a sequence answers. */
  ghost function OutcomeAt(s: Store, ops: seq<Op>, i: nat): Outcome
    requires WellFormed(s) && i < |ops|
  {
    Apply(After(s, ops[..i]), ops[i]).outcome
  }

  // ----- laws of the contract

  /** Nothing is ever removed or rewritten: every log only grows at its end. */
  ghost predicate Extends(s: Store, s': Store) {
    forall u | u in s :: u in s' && s[u] <= s'[u]
  }

  lemma ApplyExtends(s: Store, op: Op)
    requires WellFormed(s)
    ensures Extends(s, Apply(s, op).store)
    ensures forall u | u != op.user :: (u in s <==> u in Apply(s, op).store)
    ensures forall u | u in s && u != op.user :: Apply(s, op).store[u] == s[u]
  {
  }

  lemma ExtendsTransitive(a: Store, b: Store, c: Store)
    requires Extends(a, b) && Extends(b, c)
    ensures Extends(a, c)
  {
    forall u | u in a ensures u in c && a[u] <= c[u] { assert u in b && a[u] <= b[u] && b[u] <= c[u]; }
  }

  lemma AfterOneMore(s: Store, ops: seq<Op>, op: Op)
    requires WellFormed(s)
    ensures After(s, ops + [op]) == Apply(After(s, ops), op).store
  {
    assert (ops + [op])[..|ops|] == ops;
  }

  lemma {:induction false} RunExtends(s: Store, front: seq<Op>, rest: seq<Op>)
    requires WellFormed(s)
    ensures Extends(After(s, front), After(s, front + rest))
  {
    if rest == [] {
      assert front + rest == front;
    } else {
      var n := |rest| - 1;
      var before := After(s, front + rest[..n]);
      RunExtends(s, front, rest[..n]);
      assert front + rest == front + rest[..n] + [rest[n]];
      AfterOneMore(s, front + rest[..n], rest[n]);
      ApplyExtends(before, rest[n]);
      ExtendsTransitive(After(s, front), before, After(s, front + rest));
    }
  }

  /** A create goes ahead exactly when the user has no profile yet; then the profile shown and the one
      revision stored hold what was sent, at version 1, and nothing else changes. */
  lemma CreateStoresInput(s: Store, u: UserId, input: ProfileInput, now: nat)
    requires WellFormed(s)
    ensures var e := Apply(s, Create(u, input, now));
            && (e.outcome.Created? <==> u !in s)
            && (u in s ==> e.outcome.AlreadyThere? && e.store == s)
            && (u !in s ==>
                  && e.outcome.profile.userId == u && e.outcome.profile.version == 1
                  && e.outcome.profile.address == input.address
                  && e.outcome.profile.phoneNumber == input.phoneNumber
                  && u in e.store && e.store == s[u := e.store[u]] && |e.store[u]| == 1
                  && e.store[u][0].version == 1 && e.store[u][0].recordedAtMs == now
                  && e.store[u][0].address == input.address
                  && e.store[u][0].phoneNumber == input.phoneNumber)
  {
  }

  /** A read shows the newest revision and an audit all of them; neither changes anything. */
  lemma ReadsShowTheLog(s: Store, u: UserId)
    requires WellFormed(s)
    ensures var e := Apply(s, Get(u));
            && e.store == s && (e.outcome.Found? <==> u in s) && (e.outcome.Absent? <==> u !in s)
            && (u in s ==>
                  var newest := s[u][|s[u]| - 1];
                  && e.outcome.profile.userId == u && e.outcome.profile.version == |s[u]|
                  && e.outcome.profile.address == newest.address
                  && e.outcome.profile.phoneNumber == newest.phoneNumber)
    ensures var e := Apply(s, Audit(u));
            e.store == s && e.outcome.Log? && e.outcome.revisions == if u in s then s[u] else []
  {
    if u in s { assert GoodLog(s[u]); }
  }

  /** Compare-and-swap, both directions: a write is applied exactly when the profile exists at
      the quoted version and the counter can advance; then the log gains one revision that holds
      what was sent, and in every other case the store is untouched. */
  lemma PutIsCompareAndSwap(s: Store, u: UserId, expected: Version, input: ProfileInput, now: nat)
    requires WellFormed(s)
    ensures var e := Apply(s, Put(u, expected, input, now));
            && (e.outcome.Applied? <==> u in s && |s[u]| == expected && expected + 1 < U64_LIMIT)
            && (e.outcome.VersionExhausted? <==> u in s && |s[u]| == expected && expected + 1 == U64_LIMIT)
            && (e.outcome.Stale? <==> u in s && |s[u]| != expected)
            && (e.outcome.Stale? ==> e.outcome.currentVersion == |s[u]|)
            && (e.outcome.Missing? <==> u !in s)
            && (!e.outcome.Applied? ==> e.store == s)
            && (e.outcome.Applied? ==>
                  && e.store.Keys == s.Keys
                  && |e.store[u]| == expected + 1
                  && e.outcome.profile.Content() == input
                  && e.outcome.profile.version == expected + 1
                  && Project(u, Last(e.store[u])) == e.outcome.profile)
  {
    if u in s {
      assert s[u][|s[u]| - 1].version == |s[u]|;
    }
  }

  /** The profile shown and the revision stored by an applied update hold what was sent. */
  lemma PutStoresInput(s: Store, u: UserId, expected: Version, input: ProfileInput, now: nat)
    requires WellFormed(s) && Apply(s, Put(u, expected, input, now)).outcome.Applied?
    ensures var e := Apply(s, Put(u, expected, input, now));
            && e.outcome.profile.userId == u && e.outcome.profile.version == expected + 1
            && e.outcome.profile.address == input.address && e.outcome.profile.phoneNumber == input.phoneNumber
            && u in s && u in e.store && s[u] <= e.store[u] && |e.store[u]| == |s[u]| + 1 == expected + 1
            && e.store == s[u := e.store[u]]
            && e.store[u][expected].version == expected + 1 && e.store[u][expected].recordedAtMs == now
            && e.store[u][expected].address == input.address
            && e.store[u][expected].phoneNumber == input.phoneNumber
  {
    PutIsCompareAndSwap(s, u, expected, input, now);
  }

  /** Two accepted writes of one user never produce the same version, so each version is consumed
      at most once and a resent PUT is applied at most once. */
  lemma VersionConsumedOnce(s: Store, ops: seq<Op>, i: nat, j: nat)
    requires WellFormed(s) && i < j < |ops|
    requires ops[i].Put? && ops[j].Put? && ops[i].user == ops[j].user
    requires OutcomeAt(s, ops, i).Applied? && OutcomeAt(s, ops, j).Applied?
    ensures ops[i].expected < ops[j].expected
    ensures OutcomeAt(s, ops, i).profile.version < OutcomeAt(s, ops, j).profile.version
  {
    var u := ops[i].user;
    assert ops[..i + 1] == ops[..i] + [ops[i]] && ops[..j] == ops[..i + 1] + ops[i + 1..j];
    AfterOneMore(s, ops[..i], ops[i]);
    RunExtends(s, ops[..i + 1], ops[i + 1..j]);
    PutIsCompareAndSwap(After(s, ops[..i]), u, ops[i].expected, ops[i].input, ops[i].now);
    PutIsCompareAndSwap(After(s, ops[..j]), u, ops[j].expected, ops[j].input, ops[j].now);
  }
}
