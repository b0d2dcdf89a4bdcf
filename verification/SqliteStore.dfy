/** The SQLite backend: the same contract from `UPDATE … WHERE version = ?`, a row count and a
    rollback, over two tables, with a driver that may fail at any call before the commit. */
module SqliteStore {
  import opened Wrappers
  import opened StoreContract

  const I64_LIMIT: nat := 0x8000_0000_0000_0000

  datatype ProfileRow = ProfileRow(address: string, phoneNumber: string, version: int)

  datatype RevisionRow = RevisionRow(address: string, phoneNumber: string, recordedAtMs: nat)

  /** The driver calls that can report an error. */
  datatype DriverCall = Begin | WriteProfile | ReadVersion | WriteRevision | Commit | Query

  /** Versions are stored as `i64`. */
  function ToSql(v: Version): Option<int> {
    if v < I64_LIMIT then Some(v) else None
  }

  function FromSql(raw: int): Version
    requires raw < I64_LIMIT
  {
    if raw < 0 then 0 else raw
  }

  lemma SqlVersionRoundTrip(v: Version)
    ensures ToSql(v).Some? <==> v < I64_LIMIT
    ensures ToSql(v).Some? ==> ToSql(v).value < I64_LIMIT && FromSql(ToSql(v).value) == v
  {
  }

  /** A counter written by someone else and negative reads as version 0, which no tag of this service
      names. */
  lemma NegativeReadsAsZero(raw: int)
    requires raw < I64_LIMIT
    ensures FromSql(raw) == 0 <==> raw <= 0
  {
  }

  /** What a call does when no driver call fails: the contract, except that a version whose
      successor does not fit an `i64` is refused before anything is looked up. */
  function SqlApply(s: Store, op: Op): (e: Effect)
    requires WellFormed(s)
    ensures WellFormed(e.store)
  {
    if op.Put? && op.expected + 1 >= I64_LIMIT then Effect(s, VersionExhausted) else Apply(s, op)
  }

  /** The driver calls on the path a call takes, any of which fails it. */
  ghost predicate Faults(s: Store, op: Op, fails: DriverCall -> bool)
    requires WellFormed(s)
  {
    match op
    case Create(u, _, _) =>
      fails(Begin) || fails(WriteProfile) || (u !in s && (fails(WriteRevision) || fails(Commit)))
    case Get(_) => fails(Query)
    case Audit(_) => fails(Query)
    case Put(u, expected, _, _) =>
      || fails(Begin)
      || (expected + 1 < I64_LIMIT &&
          (|| fails(WriteProfile)
           || (if u in s && |s[u]| == expected then fails(WriteRevision) || fails(Commit) else fails(ReadVersion))))
  }

  // ----- ORDER BY version ASC

  lemma SomeMember<T>(s: set<T>) returns (x: T)
    requires s != {}
    ensures x in s
  {
    x :| x in s;
  }

  lemma {:induction false} MinimumExists(s: set<int>) returns (m: int)
    requires s != {}
    ensures m in s && forall x | x in s :: m <= x
    decreases |s|
  {
    var x := SomeMember(s);
    if s == {x} {
      m := x;
    } else {
      var rest := s - {x};
      assert s == rest + {x};
      var y := MinimumExists(rest);
      assert forall z | z in s :: z == x || z in rest;
      m := if x < y then x else y;
    }
  }

  function Minimum(s: set<int>): (m: int)
    requires s != {}
    ensures m in s && forall x | x in s :: m <= x
  {
    assert exists m :: m in s && forall x | x in s :: m <= x by { var m := MinimumExists(s); }
    var m :| m in s && forall x | x in s :: m <= x;
    m
  }

  function Ascending(s: set<int>): (r: seq<int>)
    ensures forall x :: x in s <==> x in r
    ensures forall i, j | 0 <= i < j < |r| :: r[i] < r[j]
  {
    if s == {} then []
    else
      var m := Minimum(s);
      [m] + Ascending(s - {m})
  }

  lemma SomeElement(r: seq<int>) returns (x: int)
    requires r != []
    ensures x in r
  {
    x := r[0];
  }

  lemma {:induction false} OneToN(r: seq<int>, n: nat)
    requires forall i, j | 0 <= i < j < |r| :: r[i] < r[j]
    requires forall x :: x in r <==> 1 <= x <= n
    ensures |r| == n && forall i | 0 <= i < n :: r[i] == i + 1
  {
    if n == 0 {
      if r != [] { var x := SomeElement(r); }
    } else {
      assert n in r;
      var k :| 0 <= k < |r| && r[k] == n;
      var last := |r| - 1;
      assert r[last] in r && k == last;
      var front := r[..last];
      assert forall x :: x in r <==> x in front || x == n by { assert r == front + [n]; }
      assert n !in front;
      OneToN(front, n - 1);
    }
  }

  function RowOf(r: Revision): ProfileRow {
    ProfileRow(r.address, r.phoneNumber, r.version)
  }

  function RevisionRowOf(r: Revision): RevisionRow {
    RevisionRow(r.address, r.phoneNumber, r.recordedAtMs)
  }

  /** The tables never disagree: every profiles row is its newest revision, and the revisions
      of a user are exactly the versions 1..n. */
  ghost predicate Consistent(profiles: map<UserId, ProfileRow>, revisions: map<(UserId, int), RevisionRow>, view: Store)
  {
    && WellFormed(view)
    && profiles.Keys == view.Keys
    && (forall u | u in view :: |view[u]| < I64_LIMIT && profiles[u] == RowOf(Last(view[u])))
    && (forall u, v :: (u, v) in revisions <==> u in view && 1 <= v <= |view[u]|)
    && (forall u, v | (u, v) in revisions :: revisions[(u, v)] == RevisionRowOf(view[u][v - 1]))
  }

  /** Writing one revision's row to both tables appends it to its user's log; its primary key is free. */
  lemma WriteKeepsConsistent(profiles: map<UserId, ProfileRow>, revisions: map<(UserId, int), RevisionRow>,
                             view: Store, u: UserId, r: Revision)
    requires Consistent(profiles, revisions, view) && r.version < I64_LIMIT
    requires r.version == if u in view then |view[u]| + 1 else 1
    ensures (u, r.version as int) !in revisions
    ensures Consistent(profiles[u := RowOf(r)], revisions[(u, r.version) := RevisionRowOf(r)],
                       view[u := (if u in view then view[u] else []) + [r]])
  {
    var view' := view[u := (if u in view then view[u] else []) + [r]];
    forall w | w in view' ensures GoodLog(view'[w]) { assert w != u ==> GoodLog(view[w]); }
  }

  /** The versions stored for a user, in ascending order. */
  function VersionsOf(revisions: map<(UserId, int), RevisionRow>, user: UserId): seq<int> {
    Ascending(set k | k in revisions && k.0 == user :: k.1)
  }

  lemma VersionsAreGapless(profiles: map<UserId, ProfileRow>, revisions: map<(UserId, int), RevisionRow>,
                           view: Store, user: UserId)
    requires Consistent(profiles, revisions, view)
    ensures var versions := VersionsOf(revisions, user);
            && |versions| == (if user in view then |view[user]| else 0)
            && forall i | 0 <= i < |versions| :: versions[i] == i + 1 && (user, i + 1) in revisions
  {
    var versions := VersionsOf(revisions, user);
    assert forall x :: x in versions <==> (user, x) in revisions;
    OneToN(versions, if user in view then |view[user]| else 0);
  }

  class SqliteProfiles {
    var profiles: map<UserId, ProfileRow>
    var revisions: map<(UserId, int), RevisionRow>

    /** The logs the two tables stand for. */
    ghost var view: Store

    ghost predicate Valid()
      reads this
    {
      Consistent(profiles, revisions, view)
    }

    constructor ()
      ensures Valid() && view == map[]
    {
      profiles, revisions, view := map[], map[], map[];
    }

    method Create(user: UserId, input: ProfileInput, now: nat, fails: DriverCall -> bool)
      returns (outcome: Outcome)
      requires Valid()
      modifies this
      ensures Valid()
      ensures outcome == BackendFault <==> Faults(old(view), Op.Create(user, input, now), fails)
      ensures outcome != BackendFault ==> Effect(view, outcome) == SqlApply(old(view), Op.Create(user, input, now))
      ensures !outcome.Created? ==> unchanged(this)
    {
      if fails(Begin) { return BackendFault; }
      var txProfiles, txRevisions := profiles, revisions;
      var raw := ToSql(INITIAL).value;

      // INSERT OR IGNORE
      if fails(WriteProfile) { return BackendFault; }
      var inserted := 0;
      if user !in txProfiles {
        txProfiles, inserted := txProfiles[user := ProfileRow(input.address, input.phoneNumber, raw)], 1;
      }
      if inserted == 0 { return AlreadyThere; }

      // INSERT, which fails on a taken primary key
      if fails(WriteRevision) || (user, raw) in txRevisions { return BackendFault; }
      txRevisions := txRevisions[(user, raw) := RevisionRow(input.address, input.phoneNumber, now)];

      if fails(Commit) { return BackendFault; }
      WriteKeepsConsistent(profiles, revisions, view, user, MakeRevision(INITIAL, input, now));
      profiles, revisions := txProfiles, txRevisions;
      assert [] + [MakeRevision(INITIAL, input, now)] == [MakeRevision(INITIAL, input, now)];
      view := view[user := [MakeRevision(INITIAL, input, now)]];
      outcome := Created(Profile(user, input.address, input.phoneNumber, INITIAL));
    }

    method Get(user: UserId, fails: DriverCall -> bool) returns (outcome: Outcome)
      requires Valid()
      ensures outcome == BackendFault <==> Faults(view, Op.Get(user), fails)
      ensures outcome != BackendFault ==> Effect(view, outcome) == SqlApply(view, Op.Get(user))
    {
      if fails(Query) { return BackendFault; }
      if user !in profiles { return Absent; }
      var row := profiles[user];
      outcome := Found(Profile(user, row.address, row.phoneNumber, FromSql(row.version)));
    }

    method Update(user: UserId, expected: Version, input: ProfileInput, now: nat, fails: DriverCall -> bool)
      returns (outcome: Outcome)
      requires Valid()
      modifies this
      ensures Valid()
      ensures outcome == BackendFault <==> Faults(old(view), Put(user, expected, input, now), fails)
      ensures outcome != BackendFault ==> Effect(view, outcome) == SqlApply(old(view), Put(user, expected, input, now))
      ensures !outcome.Applied? ==> unchanged(this)
    {
      if fails(Begin) { return BackendFault; }
      var txProfiles, txRevisions := profiles, revisions;

      var next := CheckedNext(expected);
      if next.None? { return VersionExhausted; }
      var rawNext := ToSql(next.value);
      if rawNext.None? { return VersionExhausted; }
      var rawExpected := ToSql(expected).value;

      // UPDATE … WHERE user_id = ? AND version = ?
      if fails(WriteProfile) { return BackendFault; }
      var changed := 0;
      if user in txProfiles && txProfiles[user].version == rawExpected {
        txProfiles, changed := txProfiles[user := ProfileRow(input.address, input.phoneNumber, rawNext.value)], 1;
      }

      if changed == 0 {
        if fails(ReadVersion) { return BackendFault; }
        return if user in txProfiles then Stale(FromSql(txProfiles[user].version)) else Missing;
      }

      if fails(WriteRevision) || (user, rawNext.value) in txRevisions { return BackendFault; }
      txRevisions := txRevisions[(user, rawNext.value) := RevisionRow(input.address, input.phoneNumber, now)];

      if fails(Commit) { return BackendFault; }
      WriteKeepsConsistent(profiles, revisions, view, user, MakeRevision(next.value, input, now));
      profiles, revisions := txProfiles, txRevisions;
      view := view[user := view[user] + [MakeRevision(next.value, input, now)]];
      outcome := Applied(Profile(user, input.address, input.phoneNumber, next.value));
    }

    method History(user: UserId, fails: DriverCall -> bool) returns (outcome: Outcome)
      requires Valid()
      ensures outcome == BackendFault <==> Faults(view, Audit(user), fails)
      ensures outcome != BackendFault ==> Effect(view, outcome) == SqlApply(view, Audit(user))
    {
      if fails(Query) { return BackendFault; }
      var versions := VersionsOf(revisions, user);
      var log: seq<Revision> := [];
      VersionsAreGapless(profiles, revisions, view, user);
      for i := 0 to |versions|
        invariant |log| == i && (user in view ==> log == view[user][..i])
      {
        var row := revisions[(user, versions[i])];
        log := log + [Revision(FromSql(versions[i]), row.address, row.phoneNumber, row.recordedAtMs)];
      }
      outcome := Log(log);
    }
  }

  // ----- the two backends compared

  predicate WithinI64(op: Op) {
    op.Put? ==> op.expected + 1 < I64_LIMIT
  }

  /** The bound is exact: on one call the backends agree if and only if the quoted version's
      successor fits an `i64`, or the log is at the very last `u64` version and quoted as such. */
  lemma AgreeExactlyWithinI64(s: Store, op: Op)
    requires WellFormed(s)
    ensures SqlApply(s, op) == Apply(s, op) <==>
            WithinI64(op) || (op.user in s && |s[op.user]| == op.expected == U64_LIMIT - 1)
  {
    if op.Put? && op.user in s {
      PutIsCompareAndSwap(s, op.user, op.expected, op.input, op.now);
    }
  }

  /** The smallest disagreement: a version that no profile ever had. */
  lemma DisagreementAtTheBound(user: UserId, input: ProfileInput, now: nat)
    ensures Apply(map[], Put(user, I64_LIMIT - 1, input, now)).outcome == Missing
    ensures SqlApply(map[], Put(user, I64_LIMIT - 1, input, now)).outcome == VersionExhausted
  {
  }
}
