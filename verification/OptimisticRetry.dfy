/** The optimistic protocol on top of the store: N clients of one profile each read, edit and
    write back with the version they read, and start over when the write is stale. */
module OptimisticRetry {
  import opened Wrappers
  import opened StoreContract
  import opened Sums

  datatype Client =
    | Reading                   // about to GET
    | Holding(read: Profile)    // has a profile, about to PUT its edit of it
    | Committed                 // its PUT was applied
    | Refused                   // the version counter was exhausted

  /** Each client has its own edit. */
  datatype Plan = Plan(user: UserId, edits: seq<ProfileInput -> ProfileInput>)

  /** The store and the clients; `stales` and `order` record how often each client was refused
      as stale, and who committed in which order. */
  datatype World = World(store: Store, clients: seq<Client>, stales: seq<nat>, order: seq<nat>)

  ghost function Start(plan: Plan, s: Store): World {
    World(s, seq(|plan.edits|, _ => Reading), seq(|plan.edits|, _ => 0), [])
  }

  /** The next request of client `i`: a GET or a conditional PUT, each atomic at the store. */
  ghost function Step(plan: Plan, w: World, i: nat, now: nat): Option<World>
    requires WellFormed(w.store)
  {
    if !(i < |w.clients| == |w.stales| == |plan.edits|) then None
    else match w.clients[i]
      case Reading => (
        match Apply(w.store, Get(plan.user)).outcome
        case Found(p) => Some(w.(clients := w.clients[i := Holding(p)]))
        case _ => None
      )
      case Holding(p) => (
        var e := Apply(w.store, Put(plan.user, p.version, plan.edits[i](p.Content()), now));
        match e.outcome
        case Applied(_) => Some(World(e.store, w.clients[i := Committed], w.stales, w.order + [i]))
        case Stale(_) => Some(w.(clients := w.clients[i := Reading], stales := w.stales[i := w.stales[i] + 1]))
        case VersionExhausted => Some(w.(clients := w.clients[i := Refused]))
        case _ => None
      )
      case Committed => None
      case Refused => None
  }

  /** A run under any scheduler: which client moves, and what the clock says. */
  ghost function Exec(plan: Plan, w: World, schedule: seq<(nat, nat)>): Option<World>
    requires WellFormed(w.store)
  {
    if schedule == [] then Some(w)
    else
      var n := |schedule| - 1;
      match Exec(plan, w, schedule[..n])
      case None => None
      case Some(w') =>
        if WellFormed(w'.store) then Step(plan, w', schedule[n].0, schedule[n].1) else None
  }

  ghost function ContentAt(plan: Plan, s: Store, v: nat): ProfileInput
    requires plan.user in s && 1 <= v <= |s[plan.user]|
  {
    Project(plan.user, s[plan.user][v - 1]).Content()
  }

  /** Every version above the first `base` is the next committer's edit of the version before it. */
  ghost predicate NothingLost(plan: Plan, base: nat, w: World) {
    && plan.user in w.store && 1 <= base && |w.store[plan.user]| == base + |w.order|
    && forall k | 0 <= k < |w.order| ::
         && w.order[k] < |plan.edits|
         && ContentAt(plan, w.store, base + k + 1) == plan.edits[w.order[k]](ContentAt(plan, w.store, base + k))
  }

  /** Every stale answer is paid for by a commit since the client's last read. */
  ghost predicate ClientOk(plan: Plan, base: nat, w: World, i: nat)
    requires i < |w.clients| == |w.stales| && plan.user in w.store
  {
    match w.clients[i]
    case Reading => i !in w.order && w.stales[i] <= |w.order|
    case Holding(p) =>
      && i !in w.order && 1 <= p.version <= |w.store[plan.user]|
      && p == Project(plan.user, w.store[plan.user][p.version - 1])
      && base + w.stales[i] <= p.version
    case Committed => i in w.order
    case Refused => i !in w.order && w.stales[i] <= |w.order| && |w.store[plan.user]| == U64_LIMIT - 1
  }

  ghost predicate Inv(plan: Plan, base: nat, w: World) {
    && |w.clients| == |w.stales| == |plan.edits|
    && WellFormed(w.store)
    && NothingLost(plan, base, w)
    && Distinct(w.order)
    && (forall k | 0 <= k < |w.order| :: w.stales[w.order[k]] <= k)
    && (forall i | 0 <= i < |w.clients| :: ClientOk(plan, base, w, i))
  }

  lemma StartInv(plan: Plan, s: Store)
    requires WellFormed(s) && plan.user in s
    ensures Inv(plan, |s[plan.user]|, Start(plan, s))
  {
  }

  lemma ReadStep(plan: Plan, base: nat, w: World, i: nat, now: nat)
    requires Inv(plan, base, w) && i < |w.clients| && w.clients[i].Reading?
    ensures Step(plan, w, i, now).Some? && Inv(plan, base, Step(plan, w, i, now).value)
  {
    var log := w.store[plan.user];
    assert log[|log| - 1].version == |log|;
    var w' := Step(plan, w, i, now).value;
    assert ClientOk(plan, base, w, i);
    forall j | 0 <= j < |w'.clients| ensures ClientOk(plan, base, w', j) { assert ClientOk(plan, base, w, j); }
  }

  lemma WriteStep(plan: Plan, base: nat, w: World, i: nat, now: nat)
    requires Inv(plan, base, w) && i < |w.clients| && w.clients[i].Holding?
    ensures Step(plan, w, i, now).Some? && Inv(plan, base, Step(plan, w, i, now).value)
  {
    var u, p := plan.user, w.clients[i].read;
    var input := plan.edits[i](p.Content());
    PutIsCompareAndSwap(w.store, u, p.version, input, now);
    assert ClientOk(plan, base, w, i);
    var w' := Step(plan, w, i, now).value;
    if Apply(w.store, Put(u, p.version, input, now)).outcome.Applied? {
      Commit(plan, base, w, i, now);
    } else {
      forall j | 0 <= j < |w'.clients| ensures ClientOk(plan, base, w', j) { assert ClientOk(plan, base, w, j); }
    }
  }

  /** A commit adds the committer's edit of the newest version, and ranks it last. */
  lemma CommitFrame(plan: Plan, base: nat, w: World, i: nat, now: nat)
    requires Inv(plan, base, w) && i < |w.clients| && w.clients[i].Holding?
    requires Apply(w.store, Put(plan.user, w.clients[i].read.version,
                                plan.edits[i](w.clients[i].read.Content()), now)).outcome.Applied?
    ensures Step(plan, w, i, now).Some?
    ensures var u, w', p := plan.user, Step(plan, w, i, now).value, w.clients[i].read;
            && WellFormed(w'.store) && u in w.store && u in w'.store && w.store[u] <= w'.store[u]
            && |w'.store[u]| == |w.store[u]| + 1 && p.version == |w.store[u]|
            && p == Project(u, w.store[u][p.version - 1]) && i !in w.order && w.stales[i] <= |w.order|
            && ContentAt(plan, w'.store, |w'.store[u]|) == plan.edits[i](p.Content())
            && w'.order == w.order + [i] && w'.stales == w.stales && w'.clients == w.clients[i := Committed]
  {
    var u, p := plan.user, w.clients[i].read;
    PutIsCompareAndSwap(w.store, u, p.version, plan.edits[i](p.Content()), now);
    assert ClientOk(plan, base, w, i);
  }

  lemma CommitLosesNothing(plan: Plan, base: nat, w: World, w': World, i: nat)
    requires NothingLost(plan, base, w) && i < |plan.edits|
    requires plan.user in w'.store && w.store[plan.user] <= w'.store[plan.user]
    requires |w'.store[plan.user]| == |w.store[plan.user]| + 1 && w'.order == w.order + [i]
    requires var n := |w.store[plan.user]|;
             ContentAt(plan, w'.store, n + 1) == plan.edits[i](ContentAt(plan, w.store, n))
    ensures NothingLost(plan, base, w')
  {
    forall k | 0 <= k < |w'.order|
      ensures w'.order[k] < |plan.edits|
      ensures ContentAt(plan, w'.store, base + k + 1) == plan.edits[w'.order[k]](ContentAt(plan, w'.store, base + k))
    {
      if k < |w.order| {
        assert ContentAt(plan, w.store, base + k + 1) == plan.edits[w.order[k]](ContentAt(plan, w.store, base + k));
      }
    }
  }

  lemma Commit(plan: Plan, base: nat, w: World, i: nat, now: nat)
    requires Inv(plan, base, w) && i < |w.clients| && w.clients[i].Holding?
    requires Apply(w.store, Put(plan.user, w.clients[i].read.version,
                                plan.edits[i](w.clients[i].read.Content()), now)).outcome.Applied?
    ensures Step(plan, w, i, now).Some? && Inv(plan, base, Step(plan, w, i, now).value)
  {
    CommitFrame(plan, base, w, i, now);
    var w' := Step(plan, w, i, now).value;
    CommitLosesNothing(plan, base, w, w', i);
    forall j | 0 <= j < |w'.clients| ensures ClientOk(plan, base, w', j) { assert ClientOk(plan, base, w, j); }
  }

  // ----- how long a run can be

  /** Requests client `i` has made: two per stale attempt, and those of the current one. */
  function Requests(c: Client, stales: nat): nat {
    2 * stales + match c { case Reading => 0 case Holding(_) => 1 case Committed => 2 case Refused => 2 }
  }

  function Work(w: World): seq<nat>
    requires |w.clients| == |w.stales|
  {
    seq(|w.clients|, i requires 0 <= i < |w.clients| => Requests(w.clients[i], w.stales[i]))
  }

  lemma StepIsOneRequest(plan: Plan, base: nat, w: World, i: nat, now: nat)
    requires Inv(plan, base, w) && Step(plan, w, i, now).Some?
    ensures var w' := Step(plan, w, i, now).value;
            && Inv(plan, base, w')
            && Sum(Work(w'), Indices(|Work(w')|)) == Sum(Work(w), Indices(|Work(w)|)) + 1
  {
    if w.clients[i].Reading? { ReadStep(plan, base, w, i, now); } else { WriteStep(plan, base, w, i, now); }
    RequestIsWork(plan, w, i, now);
    SumBump(Work(w), i, Indices(|w.clients|));
  }

  lemma RequestIsWork(plan: Plan, w: World, i: nat, now: nat)
    requires WellFormed(w.store) && |w.clients| == |w.stales| && Step(plan, w, i, now).Some?
    ensures var w' := Step(plan, w, i, now).value;
            |w'.clients| == |w'.stales| && Work(w') == Work(w)[i := Work(w)[i] + 1]
  {
    var w' := Step(plan, w, i, now).value;
    assert forall j | 0 <= j < |w.clients| && j != i :: w'.clients[j] == w.clients[j] && w'.stales[j] == w.stales[j];
  }

  lemma {:induction false} RunCountsRequests(plan: Plan, s: Store, schedule: seq<(nat, nat)>)
    requires WellFormed(s) && plan.user in s && Exec(plan, Start(plan, s), schedule).Some?
    ensures var w := Exec(plan, Start(plan, s), schedule).value;
            && Inv(plan, |s[plan.user]|, w)
            && |schedule| == Sum(Work(w), Indices(|Work(w)|))
  {
    var base := |s[plan.user]|;
    StartInv(plan, s);
    if schedule == [] {
      var w := Start(plan, s);
      SumOfZeros(Work(w), Indices(|Work(w)|));
    } else {
      var n := |schedule| - 1;
      RunCountsRequests(plan, s, schedule[..n]);
      var w := Exec(plan, Start(plan, s), schedule[..n]).value;
      StepIsOneRequest(plan, base, w, schedule[n].0, schedule[n].1);
    }
  }

  function RankCap(k: nat): nat { k }

  function RequestCap(k: nat): nat { 2 * k + 2 }

  lemma {:induction false} CapSumOfRanks(n: nat)
    ensures 2 * CapSum(RankCap, n) == n * (n - 1)
  {
    if n > 0 { CapSumOfRanks(n - 1); }
  }

  lemma {:induction false} CapSumOfRequests(n: nat)
    ensures CapSum(RequestCap, n) == n * (n + 1)
  {
    if n > 0 { CapSumOfRequests(n - 1); }
  }

  /** Under every scheduler: the k-th client to commit (from 0) was stale at most k times, all
      stale answers together are at most N(N-1)/2, and no run makes more than N(N+1) requests. */
  lemma RetryTerminates(plan: Plan, s: Store, schedule: seq<(nat, nat)>)
    requires WellFormed(s) && plan.user in s && Exec(plan, Start(plan, s), schedule).Some?
    ensures var w, n := Exec(plan, Start(plan, s), schedule).value, |plan.edits|;
            && |w.stales| == n
            && (forall k | 0 <= k < |w.order| :: w.order[k] < n && w.stales[w.order[k]] <= k)
            && 2 * Sum(w.stales, Indices(n)) <= n * (n - 1)
            && |schedule| <= n * (n + 1)
  {
    RunCountsRequests(plan, s, schedule);
    WorldIsBounded(plan, |s[plan.user]|, Exec(plan, Start(plan, s), schedule).value);
  }

  lemma WorldIsBounded(plan: Plan, base: nat, w: World)
    requires Inv(plan, base, w)
    ensures var n := |plan.edits|;
            && (forall k | 0 <= k < |w.order| :: w.order[k] < n && w.stales[w.order[k]] <= k)
            && 2 * Sum(w.stales, Indices(n)) <= n * (n - 1)
            && Sum(Work(w), Indices(n)) <= n * (n + 1)
  {
    StaleBounds(plan, base, w);
    SumOfRanking(w.stales, w.order, RankCap);
    CapSumOfRanks(|plan.edits|);
    WorkIsBounded(plan, base, w);
  }

  lemma WorkIsBounded(plan: Plan, base: nat, w: World)
    requires Inv(plan, base, w)
    ensures Sum(Work(w), Indices(|plan.edits|)) <= |plan.edits| * (|plan.edits| + 1)
  {
    StaleBounds(plan, base, w);
    SumOfRanking(Work(w), w.order, RequestCap);
    CapSumOfRequests(|plan.edits|);
  }

  lemma StaleBounds(plan: Plan, base: nat, w: World)
    requires Inv(plan, base, w)
    ensures forall k | 0 <= k < |w.order| ::
              w.order[k] < |w.stales| && w.stales[w.order[k]] <= k && Work(w)[w.order[k]] <= RequestCap(k)
    ensures forall i | 0 <= i < |w.stales| && i !in w.order ::
              w.stales[i] <= |w.order| && Work(w)[i] <= RequestCap(|w.order|)
  {
    forall k | 0 <= k < |w.order|
      ensures w.order[k] < |w.stales| && w.stales[w.order[k]] <= k && Work(w)[w.order[k]] <= RequestCap(k)
    {
      assert w.order[k] < |plan.edits|;
    }
    forall i | 0 <= i < |w.stales| && i !in w.order
      ensures w.stales[i] <= |w.order| && Work(w)[i] <= RequestCap(|w.order|)
    {
      assert ClientOk(plan, base, w, i);
    }
  }

  /** A client that has neither committed nor been refused can always make its next request, so a
      run ends only when every client is done. */
  lemma NeverStuck(plan: Plan, s: Store, schedule: seq<(nat, nat)>, i: nat, now: nat)
    requires WellFormed(s) && plan.user in s && Exec(plan, Start(plan, s), schedule).Some?
    requires i < |plan.edits|
    ensures var w := Exec(plan, Start(plan, s), schedule).value;
            && WellFormed(w.store) && |w.clients| == |plan.edits|
            && (Step(plan, w, i, now).Some? <==> w.clients[i].Reading? || w.clients[i].Holding?)
  {
    RunCountsRequests(plan, s, schedule);
    var w, base := Exec(plan, Start(plan, s), schedule).value, |s[plan.user]|;
    if w.clients[i].Reading? {
      ReadStep(plan, base, w, i, now);
    } else if w.clients[i].Holding? {
      WriteStep(plan, base, w, i, now);
    }
  }

  ghost predicate AllDone(w: World) {
    forall i | 0 <= i < |w.clients| :: w.clients[i].Committed? || w.clients[i].Refused?
  }

  /** No update is lost: when every client is done, each has committed exactly once, and the
      versions above the initial one are their edits applied one after the other in commit order. */
  lemma EveryEditSurvives(plan: Plan, s: Store, schedule: seq<(nat, nat)>)
    requires WellFormed(s) && plan.user in s && Exec(plan, Start(plan, s), schedule).Some?
    requires |s[plan.user]| + |plan.edits| < U64_LIMIT
    requires AllDone(Exec(plan, Start(plan, s), schedule).value)
    ensures var w := Exec(plan, Start(plan, s), schedule).value;
            && |w.order| == |plan.edits| && Distinct(w.order)
            && (forall i | 0 <= i < |plan.edits| :: i in w.order)
            && NothingLost(plan, |s[plan.user]|, w)
            && |w.store[plan.user]| == |s[plan.user]| + |plan.edits|
  {
    RunCountsRequests(plan, s, schedule);
    var w, base := Exec(plan, Start(plan, s), schedule).value, |s[plan.user]|;
    forall i | 0 <= i < |plan.edits| ensures i in w.order {
      DoneMeansCommitted(plan, base, w, i);
    }
    RankingSize(w.order, |plan.edits|);
  }

  /** Being refused takes an exhausted counter, which N edits cannot reach. */
  lemma DoneMeansCommitted(plan: Plan, base: nat, w: World, i: nat)
    requires Inv(plan, base, w) && base + |plan.edits| < U64_LIMIT
    requires i < |w.clients| && (w.clients[i].Committed? || w.clients[i].Refused?)
    ensures i in w.order
  {
    assert ClientOk(plan, base, w, i);
    RankingSize(w.order, |plan.edits|);
  }

  lemma RankingSize(order: seq<nat>, n: nat)
    requires Distinct(order) && forall k | 0 <= k < |order| :: order[k] < n
    ensures |order| <= n
    ensures (forall i | 0 <= i < n :: i in order) <==> |order| == n
  {
    var ranked, all := Members(order), Indices(n);
    DistinctSize(order);
    SubsetSize(ranked, all);
    assert forall i | 0 <= i < n :: i in all && (i in order <==> i in ranked);
    if forall i | 0 <= i < n :: i in order {
      assert all <= ranked;
    }
  }

  /** Already before that, at every point of every run, each version is the next committer's edit of
      the version before it. */
  lemma RunLosesNothing(plan: Plan, s: Store, schedule: seq<(nat, nat)>)
    requires WellFormed(s) && plan.user in s && Exec(plan, Start(plan, s), schedule).Some?
    ensures NothingLost(plan, |s[plan.user]|, Exec(plan, Start(plan, s), schedule).value)
  {
    RunCountsRequests(plan, s, schedule);
  }

  ghost predicate EachEditAddsOne(plan: Plan, reading: ProfileInput -> int) {
    forall i, c | 0 <= i < |plan.edits| :: reading(plan.edits[i](c)) == reading(c) + 1
  }

  /** The counter test: when each edit adds one to some reading of the profile, m commits have added
      exactly m, at every point of every run. */
  lemma IncrementsAddUp(plan: Plan, s: Store, schedule: seq<(nat, nat)>, reading: ProfileInput -> int)
    requires WellFormed(s) && plan.user in s && Exec(plan, Start(plan, s), schedule).Some?
    requires EachEditAddsOne(plan, reading)
    ensures var w, base := Exec(plan, Start(plan, s), schedule).value, |s[plan.user]|;
            && NothingLost(plan, base, w)
            && reading(ContentAt(plan, w.store, base + |w.order|)) ==
               reading(ContentAt(plan, w.store, base)) + |w.order|
  {
    RunLosesNothing(plan, s, schedule);
    var w := Exec(plan, Start(plan, s), schedule).value;
    ChainAddsUp(plan, |s[plan.user]|, w, reading, |w.order|);
  }

  lemma {:induction false} ChainAddsUp(plan: Plan, base: nat, w: World, reading: ProfileInput -> int, m: nat)
    requires NothingLost(plan, base, w) && m <= |w.order| && EachEditAddsOne(plan, reading)
    ensures reading(ContentAt(plan, w.store, base + m)) == reading(ContentAt(plan, w.store, base)) + m
  {
    if m > 0 {
      var k := m - 1;
      ChainAddsUp(plan, base, w, reading, k);
      assert ContentAt(plan, w.store, base + k + 1) == plan.edits[w.order[k]](ContentAt(plan, w.store, base + k));
    }
  }
}
