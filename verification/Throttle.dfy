/** Login throttling: failure counters per account and per address, each in a window that opens
    with its first failure and is discarded lazily. */
module Throttle {
  import opened Wrappers

  type Address = nat

  datatype Failures = Failures(count: nat, windowStarted: nat)

  datatype Verdict = Allowed | AddressThrottled | AccountThrottled

  datatype Policy = Policy(accountLimit: nat, addressLimit: nat, window: nat)

  predicate Open(f: Failures, window: nat, now: nat) {
    now < f.windowStarted + window
  }

  predicate IsOver<K(==)>(table: map<K, Failures>, key: K, limit: nat, window: nat, now: nat) {
    key in table && Open(table[key], window, now) && table[key].count >= limit
  }

  /** A check drops a window that has lapsed. */
  function Pruned<K(==)>(table: map<K, Failures>, key: K, window: nat, now: nat): map<K, Failures> {
    if key in table && !Open(table[key], window, now) then table - {key} else table
  }

  function Bump(f: Option<Failures>, window: nat, now: nat): Failures {
    if f.Some? && Open(f.value, window, now) then Failures(f.value.count + 1, f.value.windowStarted)
    else Failures(1, now)
  }

  function EntryOf<K(==)>(table: map<K, Failures>, key: K): Option<Failures> {
    if key in table then Some(table[key]) else None
  }

  function Bumped<K(==)>(table: map<K, Failures>, key: K, window: nat, now: nat): map<K, Failures> {
    table[key := Bump(EntryOf(table, key), window, now)]
  }

  class Counters<K(==)> {
    var table: map<K, Failures>

    constructor ()
      ensures table == map[]
    {
      table := map[];
    }

    method Over(key: K, limit: nat, window: nat, now: nat) returns (over: bool)
      modifies this
      ensures over == IsOver(old(table), key, limit, window, now)
      ensures table == Pruned(old(table), key, window, now)
      ensures over <==> key in old(table)
                        && now < old(table)[key].windowStarted + window && old(table)[key].count >= limit
      ensures forall k :: k in table <==>
                k in old(table) && (k != key || now < old(table)[k].windowStarted + window)
      ensures forall k | k in table :: table[k] == old(table)[k]
    {
      if key !in table {
        return false;
      }
      var failures := table[key];
      if now < failures.windowStarted + window {
        return failures.count >= limit;
      }
      table := table - {key};
      over := false;
    }

    method RecordOne(key: K, window: nat, now: nat)
      modifies this
      ensures table == Bumped(old(table), key, window, now)
      ensures table == old(table)[key := table[key]]
      ensures var open := key in old(table) && now < old(table)[key].windowStarted + window;
              && table[key].count == (if open then old(table)[key].count + 1 else 1)
              && table[key].windowStarted == (if open then old(table)[key].windowStarted else now)
    {
      var entry := if key in table then table[key] else Failures(0, now);
      if now >= entry.windowStarted + window {
        entry := Failures(0, now);
      }
      entry := entry.(count := entry.count + 1);
      table := table[key := entry];
    }

    method Clear(key: K)
      modifies this
      ensures table == old(table) - {key}
    {
      table := table - {key};
    }
  }

  /** The two tables as one value. */
  datatype Tables = Tables(byAccount: map<string, Failures>, byAddress: map<Address, Failures>)

  datatype Checked = Checked(tables: Tables, verdict: Verdict)

  function CheckOn(p: Policy, t: Tables, username: string, address: Option<Address>, now: nat): Checked {
    var byAddress := if address.Some? then Pruned(t.byAddress, address.value, p.window, now) else t.byAddress;
    if address.Some? && IsOver(t.byAddress, address.value, p.addressLimit, p.window, now) then
      Checked(Tables(t.byAccount, byAddress), AddressThrottled)
    else
      Checked(Tables(Pruned(t.byAccount, username, p.window, now), byAddress),
              if IsOver(t.byAccount, username, p.accountLimit, p.window, now) then AccountThrottled else Allowed)
  }

  function FailOn(p: Policy, t: Tables, username: string, address: Option<Address>, now: nat): Tables {
    Tables(Bumped(t.byAccount, username, p.window, now),
           if address.Some? then Bumped(t.byAddress, address.value, p.window, now) else t.byAddress)
  }

  function SucceedOn(t: Tables, username: string): Tables {
    t.(byAccount := t.byAccount - {username})
  }

  class LoginThrottle {
    const byAccount: Counters<string>
    const byAddress: Counters<Address>
    const policy: Policy

    ghost function View(): Tables
      reads byAccount, byAddress
    {
      Tables(byAccount.table, byAddress.table)
    }

    constructor (policy: Policy)
      ensures View() == Tables(map[], map[]) && this.policy == policy
      ensures fresh(byAccount) && fresh(byAddress)
    {
      this.policy := policy;
      byAccount := new Counters();
      byAddress := new Counters();
    }

    method Check(username: string, address: Option<Address>, now: nat) returns (verdict: Verdict)
      modifies byAccount, byAddress
      ensures Checked(View(), verdict) == CheckOn(policy, old(View()), username, address, now)
    {
      if address.Some? {
        var over := byAddress.Over(address.value, policy.addressLimit, policy.window, now);
        if over {
          return AddressThrottled;
        }
      }
      var over := byAccount.Over(username, policy.accountLimit, policy.window, now);
      verdict := if over then AccountThrottled else Allowed;
    }

    method RecordFailure(username: string, address: Option<Address>, now: nat)
      modifies byAccount, byAddress
      ensures View() == FailOn(policy, old(View()), username, address, now)
    {
      byAccount.RecordOne(username, policy.window, now);
      if address.Some? {
        byAddress.RecordOne(address.value, policy.window, now);
      }
    }

    method RecordSuccess(username: string)
      modifies byAccount
      ensures View() == SucceedOn(old(View()), username)
    {
      byAccount.Clear(username);
    }
  }

  // ----- verdicts as a fold of the recorded events alone

  datatype Event = Failure(now: nat) | Success(now: nat)

  ghost predicate InOrder(log: seq<Event>) {
    forall i, j | 0 <= i < j < |log| :: log[i].now <= log[j].now
  }

  /** The window the log has left open, however long ago it lapsed. */
  function Tally(log: seq<Event>, window: nat): Option<Failures> {
    if log == [] then None
    else
      var n := |log| - 1;
      match log[n]
      case Success(_) => None
      case Failure(now) => Some(Bump(Tally(log[..n], window), window, now))
  }

  predicate LogIsOver(log: seq<Event>, limit: nat, window: nat, now: nat) {
    var t := Tally(log, window);
    t.Some? && Open(t.value, window, now) && t.value.count >= limit
  }

  datatype Call =
    | Check(username: string, address: Option<Address>, now: nat)
    | Fail(username: string, address: Option<Address>, now: nat)
    | Succeed(username: string, now: nat)

  ghost predicate Chronological(calls: seq<Call>) {
    forall i, j | 0 <= i < j < |calls| :: calls[i].now <= calls[j].now
  }

  function CallOn(p: Policy, t: Tables, c: Call): Tables {
    match c
    case Check(username, address, now) => CheckOn(p, t, username, address, now).tables
    case Fail(username, address, now) => FailOn(p, t, username, address, now)
    case Succeed(username, _) => SucceedOn(t, username)
  }

  function TablesAfter(p: Policy, calls: seq<Call>): Tables {
    if calls == [] then Tables(map[], map[])
    else CallOn(p, TablesAfter(p, calls[..|calls| - 1]), calls[|calls| - 1])
  }

  /** What concerns one account: its failures and its successes, never a check. */
  function AccountLog(calls: seq<Call>, username: string): seq<Event> {
    if calls == [] then []
    else
      var n := |calls| - 1;
      AccountLog(calls[..n], username) +
      (if calls[n].username != username || calls[n].Check? then []
       else if calls[n].Fail? then [Failure(calls[n].now)] else [Success(calls[n].now)])
  }

  /** What concerns one address: its failures only. */
  function AddressLog(calls: seq<Call>, address: Address): seq<Event> {
    if calls == [] then []
    else
      var n := |calls| - 1;
      AddressLog(calls[..n], address) +
      (if calls[n].Fail? && calls[n].address == Some(address) then [Failure(calls[n].now)] else [])
  }

  function StillOpen(f: Option<Failures>, window: nat, now: nat): Option<Failures> {
    if f.Some? && Open(f.value, window, now) then f else None
  }

  lemma TallyAppend(log: seq<Event>, e: Event, window: nat)
    ensures Tally(log + [e], window) ==
            if e.Failure? then Some(Bump(Tally(log, window), window, e.now)) else None
  {
    assert (log + [e])[..|log|] == log;
  }

  lemma AccountStep(p: Policy, t: Tables, f: Option<Failures>, c: Call, username: string, later: nat)
    requires c.now <= later
    requires StillOpen(EntryOf(t.byAccount, username), p.window, c.now) == StillOpen(f, p.window, c.now)
    requires StillOpen(EntryOf(t.byAccount, username), p.window, later) == StillOpen(f, p.window, later)
    ensures StillOpen(EntryOf(CallOn(p, t, c).byAccount, username), p.window, later) ==
            StillOpen(if c.username != username || c.Check? then f
                      else if c.Fail? then Some(Bump(f, p.window, c.now)) else None, p.window, later)
  {
  }

  lemma AddressStep(p: Policy, t: Tables, f: Option<Failures>, c: Call, address: Address, later: nat)
    requires c.now <= later
    requires StillOpen(EntryOf(t.byAddress, address), p.window, c.now) == StillOpen(f, p.window, c.now)
    requires StillOpen(EntryOf(t.byAddress, address), p.window, later) == StillOpen(f, p.window, later)
    ensures StillOpen(EntryOf(CallOn(p, t, c).byAddress, address), p.window, later) ==
            StillOpen(if c.Fail? && c.address == Some(address) then Some(Bump(f, p.window, c.now)) else f,
                      p.window, later)
  {
  }

  lemma {:induction false} AccountAgrees(p: Policy, calls: seq<Call>, username: string, now: nat)
    requires Chronological(calls) && forall i | 0 <= i < |calls| :: calls[i].now <= now
    ensures StillOpen(EntryOf(TablesAfter(p, calls).byAccount, username), p.window, now) ==
            StillOpen(Tally(AccountLog(calls, username), p.window), p.window, now)
  {
    if calls != [] {
      var n := |calls| - 1;
      var c, log := calls[n], AccountLog(calls[..n], username);
      AccountAgrees(p, calls[..n], username, c.now);
      AccountAgrees(p, calls[..n], username, now);
      AccountStep(p, TablesAfter(p, calls[..n]), Tally(log, p.window), c, username, now);
      if c.username == username && !c.Check? {
        TallyAppend(log, if c.Fail? then Failure(c.now) else Success(c.now), p.window);
      } else {
        assert log + [] == log;
      }
    }
  }

  lemma {:induction false} AddressAgrees(p: Policy, calls: seq<Call>, address: Address, now: nat)
    requires Chronological(calls) && forall i | 0 <= i < |calls| :: calls[i].now <= now
    ensures StillOpen(EntryOf(TablesAfter(p, calls).byAddress, address), p.window, now) ==
            StillOpen(Tally(AddressLog(calls, address), p.window), p.window, now)
  {
    if calls != [] {
      var n := |calls| - 1;
      var c, log := calls[n], AddressLog(calls[..n], address);
      AddressAgrees(p, calls[..n], address, c.now);
      AddressAgrees(p, calls[..n], address, now);
      AddressStep(p, TablesAfter(p, calls[..n]), Tally(log, p.window), c, address, now);
      if c.Fail? && c.address == Some(address) {
        TallyAppend(log, Failure(c.now), p.window);
      } else {
        assert log + [] == log;
      }
    }
  }

  /** Every verdict is the one computed from the recorded failures and successes alone: checks
      leave no trace, other accounts and addresses do not matter, and a success clears only its
      account. */
  lemma VerdictIsFoldOfLog(p: Policy, calls: seq<Call>, i: nat)
    requires Chronological(calls) && i < |calls| && calls[i].Check?
    ensures var c := calls[i];
            CheckOn(p, TablesAfter(p, calls[..i]), c.username, c.address, c.now).verdict ==
            if c.address.Some? && LogIsOver(AddressLog(calls[..i], c.address.value), p.addressLimit, p.window, c.now)
            then AddressThrottled
            else if LogIsOver(AccountLog(calls[..i], c.username), p.accountLimit, p.window, c.now)
            then AccountThrottled
            else Allowed
  {
    var c := calls[i];
    AccountAgrees(p, calls[..i], c.username, c.now);
    if c.address.Some? { AddressAgrees(p, calls[..i], c.address.value, c.now); }
  }

  // ----- what the fold counts

  /** A count of n in a window from s means: the last n events are failures, the first of them at
      s, all before s + window, with no success among them. */
  lemma {:induction false} TallyCountsLastFailures(log: seq<Event>, window: nat)
    requires InOrder(log) && window > 0 && Tally(log, window).Some?
    ensures var f := Tally(log, window).value;
            && 1 <= f.count <= |log|
            && log[|log| - f.count].now == f.windowStarted
            && forall i | |log| - f.count <= i < |log| ::
                 log[i].Failure? && f.windowStarted <= log[i].now < f.windowStarted + window
  {
    var n := |log| - 1;
    if Tally(log[..n], window).Some? { TallyCountsLastFailures(log[..n], window); }
  }

  /** Failures during an open window, throttled or not, never move its start. */
  lemma {:induction false} FailuresDoNotExtend(log: seq<Event>, more: seq<Event>, window: nat)
    requires Tally(log, window).Some?
    requires forall i | 0 <= i < |more| :: more[i].Failure? && Open(Tally(log, window).value, window, more[i].now)
    ensures Tally(log + more, window) ==
            Some(Failures(Tally(log, window).value.count + |more|, Tally(log, window).value.windowStarted))
  {
    if more == [] {
      assert log + more == log;
    } else {
      var m := |more| - 1;
      FailuresDoNotExtend(log, more[..m], window);
      assert log + more == log + more[..m] + [more[m]];
      TallyAppend(log + more[..m], more[m], window);
    }
  }

  /** So a lockout ends at window_started + window, however often it was hit meanwhile. */
  lemma LockoutEnds(log: seq<Event>, more: seq<Event>, limit: nat, window: nat, now: nat)
    requires Tally(log, window).Some? && now >= Tally(log, window).value.windowStarted + window
    requires forall i | 0 <= i < |more| :: more[i].Failure? && Open(Tally(log, window).value, window, more[i].now)
    ensures !LogIsOver(log + more, limit, window, now)
  {
    FailuresDoNotExtend(log, more, window);
  }

  // ----- failures in any interval one window long

  function CountIn(log: seq<Event>, from: nat, to: nat): nat {
    if log == [] then 0
    else
      var n := |log| - 1;
      CountIn(log[..n], from, to) + (if log[n].Failure? && from <= log[n].now < to then 1 else 0)
  }

  lemma {:induction false} CountNoneBefore(log: seq<Event>, from: nat, to: nat)
    requires forall i | 0 <= i < |log| :: log[i].now < from
    ensures CountIn(log, from, to) == 0
  {
    if log != [] { CountNoneBefore(log[..|log| - 1], from, to); }
  }

  ghost predicate CappedAt(log: seq<Event>, window: nat, cap: nat) {
    forall n | 0 <= n <= |log| :: Tally(log[..n], window).Some? ==> Tally(log[..n], window).value.count <= cap
  }

  ghost predicate OnlyFailures(log: seq<Event>) {
    forall i | 0 <= i < |log| :: log[i].Failure?
  }

  /** How many of the interval's failures the current window can account for. */
  lemma {:induction false} IntervalCount(log: seq<Event>, window: nat, cap: nat, from: nat)
    requires InOrder(log) && OnlyFailures(log) && CappedAt(log, window, cap) && window > 0 && log != []
    ensures var f, c := Tally(log, window).value, CountIn(log, from, from + window);
            && Tally(log, window).Some? && 1 <= f.count <= cap
            && f.windowStarted <= log[|log| - 1].now < f.windowStarted + window
            && (f.windowStarted < from ==> c < f.count)
            && (f.windowStarted == from ==> c <= f.count)
            && (from < f.windowStarted < from + window ==> c < f.count + cap)
            && (from + window <= f.windowStarted ==> c < 2 * cap)
  {
    var n := |log| - 1;
    var front, now := log[..n], log[n].now;
    assert log[..|log|] == log;
    if front != [] {
      assert CappedAt(front, window, cap) by {
        forall k | 0 <= k <= n
          ensures Tally(front[..k], window).Some? ==> Tally(front[..k], window).value.count <= cap
        {
          assert front[..k] == log[..k];
        }
      }
      IntervalCount(front, window, cap, from);
      var f := Tally(front, window).value;
      if f.windowStarted + window <= now <= from {
        CountNoneBefore(front, from, from + window);
      }
    }
  }

  /** The most failures any interval one window long can hold when no window counts more than `cap`. */
  function IntervalCap(cap: nat): nat {
    if cap == 0 then 0 else 2 * cap - 1
  }

  /** When no window ever counts more than `cap` failures, no interval one window long, wherever it
      starts, holds more than 2*cap - 1 of them. */
  lemma IntervalBound(log: seq<Event>, window: nat, cap: nat, from: nat)
    requires InOrder(log) && OnlyFailures(log) && CappedAt(log, window, cap)
    ensures CountIn(log, from, from + window) <= IntervalCap(cap)
  {
    if window == 0 {
      CountEmpty(log, from);
    } else if log != [] {
      IntervalCount(log, window, cap, from);
    }
  }

  lemma {:induction false} CountEmpty(log: seq<Event>, from: nat)
    ensures CountIn(log, from, from) == 0
  {
    if log != [] { CountEmpty(log[..|log| - 1], from); }
  }

  // ----- the interval bound is attained

  /** A log as the interval bound wants it, with what it tallies and counts. */
  ghost predicate Burst(log: seq<Event>, window: nat, cap: nat, from: nat, latest: nat, f: Failures, counted: nat) {
    && InOrder(log) && OnlyFailures(log) && CappedAt(log, window, cap)
    && (forall i | 0 <= i < |log| :: log[i].now <= latest)
    && Tally(log, window) == Some(f)
    && CountIn(log, from, from + window) == counted
  }

  lemma BurstOne(log: seq<Event>, window: nat, cap: nat, from: nat, latest: nat, f: Failures, counted: nat, now: nat)
    requires Burst(log, window, cap, from, latest, f, counted) && latest <= now
    requires Bump(Some(f), window, now).count <= cap
    ensures Burst(log + [Failure(now)], window, cap, from, now, Bump(Some(f), window, now),
                  counted + if from <= now < from + window then 1 else 0)
  {
    var log' := log + [Failure(now)];
    TallyAppend(log, Failure(now), window);
    assert log'[..|log|] == log && log'[..|log'|] == log';
    forall n | 0 <= n <= |log'| ensures Tally(log'[..n], window).Some? ==> Tally(log'[..n], window).value.count <= cap {
      if n <= |log| { assert log'[..n] == log[..n]; }
    }
  }

  lemma {:induction false} BurstMany(log: seq<Event>, window: nat, cap: nat, from: nat, f: Failures, counted: nat,
                                     now: nat, k: nat) returns (log': seq<Event>)
    requires Burst(log, window, cap, from, now, f, counted)
    requires Open(f, window, now) && f.count + k <= cap && from <= now < from + window
    ensures Burst(log', window, cap, from, now, Failures(f.count + k, f.windowStarted), counted + k)
    decreases k
  {
    if k == 0 {
      log' := log;
    } else {
      BurstOne(log, window, cap, from, now, f, counted, now);
      log' := BurstMany(log + [Failure(now)], window, cap, from, Failures(f.count + 1, f.windowStarted),
                        counted + 1, now, k - 1);
    }
  }

  lemma BurstOpens(window: nat, cap: nat)
    requires window >= 2 && cap > 0
    ensures Burst([Failure(0)], window, cap, window - 1, window - 1, Failures(1, 0), 0)
  {
    var log := [Failure(0)];
    assert log[..1] == log && log[..0] == [];
    assert CountIn(log[..0], window - 1, 2 * window - 1) == 0;
  }

  /** One failure opens a window, the rest of its cap comes in its last tick, and a full window
      follows at once: 2*cap - 1 failures within one window's length. */
  lemma IntervalBoundIsAttained(window: nat, cap: nat) returns (log: seq<Event>)
    requires window >= 2 && cap > 0
    ensures InOrder(log) && OnlyFailures(log) && CappedAt(log, window, cap)
    ensures CountIn(log, window - 1, 2 * window - 1) == IntervalCap(cap)
  {
    var from := window - 1;
    BurstOpens(window, cap);
    var late := BurstMany([Failure(0)], window, cap, from, Failures(1, 0), 0, from, cap - 1);
    BurstOne(late, window, cap, from, from, Failures(cap, 0), cap - 1, window);
    assert !Open(Failures(cap, 0), window, window);
    log := BurstMany(late + [Failure(window)], window, cap, from, Failures(1, window), cap, window, cap - 1);
  }
}
