/** Idempotency keys: reservations and recorded outcomes with two lapse windows, swept only
    when a request begins. */
module Idempotency {
  import opened Wrappers

  type Slot = (string, string) // user and key

  datatype Recorded = Recorded(status: nat, body: string, etag: Option<string>)

  datatype Lookup = Reserved | Replay(recorded: Recorded) | Busy | BodyMismatch

  datatype Entry =
    | InFlight(fingerprint: nat, since: nat)
    | Complete(fingerprint: nat, at: nat, recorded: Recorded)

  type Table = map<Slot, Entry>

  /** The two windows, and the hash that stands for a body. */
  datatype Policy = Policy(retention: nat, reservationTimeout: nat, fingerprint: string -> nat)

  function EntryOf(entries: Table, slot: Slot): Option<Entry> {
    if slot in entries then Some(entries[slot]) else None
  }

  predicate Live(p: Policy, e: Entry, now: nat) {
    match e
    case InFlight(_, since) => now < since + p.reservationTimeout
    case Complete(_, at, _) => now < at + p.retention
  }

  function Swept(p: Policy, entries: Table, now: nat): Table {
    map slot | slot in entries && Live(p, entries[slot], now) :: entries[slot]
  }

  datatype Begun = Begun(entries: Table, lookup: Lookup)

  function BeginOn(p: Policy, entries: Table, slot: Slot, body: string, now: nat): Begun {
    var swept := Swept(p, entries, now);
    if slot in swept then Begun(swept, Known(p, swept[slot], body))
    else Begun(swept[slot := InFlight(p.fingerprint(body), now)], Reserved)
  }

  /** What an entry that still stands answers to a body. */
  function Known(p: Policy, e: Entry, body: string): Lookup {
    if e.fingerprint != p.fingerprint(body) then BodyMismatch
    else match e
      case InFlight(_, _) => Busy
      case Complete(_, _, recorded) => Replay(recorded)
  }

  function FinishOn(p: Policy, entries: Table, slot: Slot, body: string, recorded: Recorded, now: nat): Table {
    entries[slot := Complete(p.fingerprint(body), now, recorded)]
  }

  function AbandonOn(entries: Table, slot: Slot): Table {
    if slot in entries && entries[slot].InFlight? then entries - {slot} else entries
  }

  class IdempotencyStore {
    var entries: Table
    const policy: Policy

    constructor (policy: Policy)
      ensures entries == map[] && this.policy == policy
    {
      this.policy, entries := policy, map[];
    }

    /** Drops exactly the lapsed entries, which no later `begin` would have found. */
    method Expire(now: nat)
      modifies this
      ensures forall slot :: slot in entries <==> slot in old(entries) && Live(policy, old(entries)[slot], now)
      ensures forall slot | slot in entries :: entries[slot] == old(entries)[slot]
      ensures forall slot, body, later | now <= later ::
                BeginOn(policy, entries, slot, body, later) == BeginOn(policy, old(entries), slot, body, later)
    {
      ghost var before := entries;
      entries := map slot | slot in entries && Live(policy, entries[slot], now) :: entries[slot];
      forall slot, body, later | now <= later
        ensures BeginOn(policy, entries, slot, body, later) == BeginOn(policy, before, slot, body, later)
      {
        assert Swept(policy, entries, later) == Swept(policy, before, later);
      }
    }

    method Begin(user: string, key: string, body: string, now: nat) returns (lookup: Lookup)
      modifies this
      ensures Begun(entries, lookup) == BeginOn(policy, old(entries), (user, key), body, now)
    {
      var fingerprint := policy.fingerprint(body);
      var slot := (user, key);
      Expire(now);
      assert entries == Swept(policy, old(entries), now);
      if slot !in entries {
        entries := entries[slot := InFlight(fingerprint, now)];
        return Reserved;
      }
      var entry := entries[slot];
      if entry.fingerprint != fingerprint {
        return BodyMismatch;
      }
      lookup := if entry.InFlight? then Busy else Replay(entry.recorded);
    }

    /** From now on and for the retention, the slot answers with this outcome to an equal body and
        with a mismatch to any other; no other slot is touched. */
    method Finish(user: string, key: string, body: string, recorded: Recorded, now: nat)
      modifies this
      ensures EntryOf(entries, (user, key)) == Some(Complete(policy.fingerprint(body), now, recorded))
      ensures forall slot | slot != (user, key) :: EntryOf(entries, slot) == EntryOf(old(entries), slot)
      ensures forall retry, later | now <= later < now + policy.retention ::
                BeginOn(policy, entries, (user, key), retry, later).lookup ==
                if policy.fingerprint(retry) == policy.fingerprint(body) then Replay(recorded) else BodyMismatch
    {
      entries := entries[(user, key) := Complete(policy.fingerprint(body), now, recorded)];
    }

    /** Frees a reserved slot, so that the next `begin` on it goes ahead, and leaves a recorded outcome
        to answer as before; no other slot is touched. */
    method Abandon(user: string, key: string)
      modifies this
      ensures EntryOf(entries, (user, key)) ==
              var before := EntryOf(old(entries), (user, key));
              if before.Some? && before.value.InFlight? then None else before
      ensures forall slot | slot != (user, key) :: EntryOf(entries, slot) == EntryOf(old(entries), slot)
      ensures forall retry, later ::
                BeginOn(policy, entries, (user, key), retry, later).lookup ==
                var before := EntryOf(old(entries), (user, key));
                if before.Some? && before.value.Complete? && Live(policy, before.value, later)
                then Known(policy, before.value, retry) else Reserved
    {
      var slot := (user, key);
      if slot in entries && entries[slot].InFlight? {
        entries := entries - {slot};
      }
    }
  }

  // ----- runs of calls on the shared table

  datatype Call =
    | Begin(slot: Slot, body: string, now: nat)
    | Finish(slot: Slot, body: string, recorded: Recorded, now: nat)
    | Abandon(slot: Slot, now: nat)

  /** The clock never runs backwards along a run. */
  ghost predicate Chronological(log: seq<Call>) {
    forall i, j | 0 <= i < j < |log| :: log[i].now <= log[j].now
  }

  function CallOn(p: Policy, entries: Table, c: Call): Table {
    match c
    case Begin(slot, body, now) => BeginOn(p, entries, slot, body, now).entries
    case Finish(slot, body, recorded, now) => FinishOn(p, entries, slot, body, recorded, now)
    case Abandon(slot, _) => AbandonOn(entries, slot)
  }

  function TableAfter(p: Policy, log: seq<Call>): Table {
    if log == [] then map[] else CallOn(p, TableAfter(p, log[..|log| - 1]), log[|log| - 1])
  }

  /** What the `i`-th call, a `begin`, is answered. */
  function AnswerAt(p: Policy, log: seq<Call>, i: nat): Lookup
    requires i < |log| && log[i].Begin?
  {
    BeginOn(p, TableAfter(p, log[..i]), log[i].slot, log[i].body, log[i].now).lookup
  }

  // ----- one slot on its own, whose entry vanishes at its exact deadline

  function Standing(p: Policy, e: Option<Entry>, now: nat): Option<Entry> {
    if e.Some? && Live(p, e.value, now) then e else None
  }

  function SlotCall(p: Policy, e: Option<Entry>, c: Call): Option<Entry> {
    var standing := Standing(p, e, c.now);
    match c
    case Begin(_, body, now) => if standing.Some? then standing else Some(InFlight(p.fingerprint(body), now))
    case Finish(_, body, recorded, now) => Some(Complete(p.fingerprint(body), now, recorded))
    case Abandon(_, _) => if standing.Some? && standing.value.InFlight? then None else standing
  }

  function SlotAnswer(p: Policy, e: Option<Entry>, body: string, now: nat): Lookup {
    var standing := Standing(p, e, now);
    if standing.Some? then Known(p, standing.value, body) else Reserved
  }

  /** The calls on one slot, in order. */
  function Only(slot: Slot, log: seq<Call>): seq<Call> {
    if log == [] then []
    else
      var n := |log| - 1;
      Only(slot, log[..n]) + (if log[n].slot == slot then [log[n]] else [])
  }

  function SlotAfter(p: Policy, calls: seq<Call>): Option<Entry> {
    if calls == [] then None else SlotCall(p, SlotAfter(p, calls[..|calls| - 1]), calls[|calls| - 1])
  }

  lemma OneCallAgrees(p: Policy, entries: Table, e: Option<Entry>, slot: Slot, c: Call, later: nat)
    requires c.now <= later
    requires Standing(p, EntryOf(entries, slot), c.now) == Standing(p, e, c.now)
    requires Standing(p, EntryOf(entries, slot), later) == Standing(p, e, later)
    ensures Standing(p, EntryOf(CallOn(p, entries, c), slot), later) ==
            Standing(p, if c.slot == slot then SlotCall(p, e, c) else e, later)
  {
  }

  lemma {:induction false} TableAgreesWithSlot(p: Policy, log: seq<Call>, slot: Slot, now: nat)
    requires Chronological(log) && forall i | 0 <= i < |log| :: log[i].now <= now
    ensures Standing(p, EntryOf(TableAfter(p, log), slot), now) == Standing(p, SlotAfter(p, Only(slot, log)), now)
  {
    if log != [] {
      var n := |log| - 1;
      var c := log[n];
      TableAgreesWithSlot(p, log[..n], slot, c.now);
      TableAgreesWithSlot(p, log[..n], slot, now);
      OneCallAgrees(p, TableAfter(p, log[..n]), SlotAfter(p, Only(slot, log[..n])), slot, c, now);
      var before := Only(slot, log[..n]);
      assert (before + [c])[..|before|] == before;
      assert before + [] == before;
    }
  }

  /** Lazy sweeping is unobservable: in every run of calls for any users and keys on a clock that
      never runs backwards, each `begin` is answered as by a machine that holds only its own slot,
      sees only the calls on it, and drops its entry at the exact deadline. */
  lemma SweepingIsUnobservable(p: Policy, log: seq<Call>, i: nat)
    requires Chronological(log) && i < |log| && log[i].Begin?
    ensures AnswerAt(p, log, i) ==
            SlotAnswer(p, SlotAfter(p, Only(log[i].slot, log[..i])), log[i].body, log[i].now)
  {
    TableAgreesWithSlot(p, log[..i], log[i].slot, log[i].now);
  }

  /** Hence two runs that agree on the calls of a slot answer its next `begin` alike. */
  lemma OtherSlotsIrrelevant(p: Policy, log: seq<Call>, i: nat, log': seq<Call>, i': nat)
    requires Chronological(log) && i < |log| && log[i].Begin?
    requires Chronological(log') && i' < |log'| && log'[i'] == log[i]
    requires Only(log[i].slot, log[..i]) == Only(log[i].slot, log'[..i'])
    ensures AnswerAt(p, log, i) == AnswerAt(p, log', i')
  {
    SweepingIsUnobservable(p, log, i);
    SweepingIsUnobservable(p, log', i');
  }

  // ----- where an answer comes from

  ghost predicate Reserves(p: Policy, log: seq<Call>, k: nat, slot: Slot, fingerprint: nat, since: nat) {
    && k < |log| && log[k].Begin? && log[k].slot == slot && log[k].now == since
    && p.fingerprint(log[k].body) == fingerprint && AnswerAt(p, log, k) == Reserved
  }

  ghost predicate Records(p: Policy, log: seq<Call>, k: nat, slot: Slot, e: Entry)
    requires e.Complete?
  {
    && k < |log| && log[k].Finish? && log[k].slot == slot && log[k].now == e.at
    && p.fingerprint(log[k].body) == e.fingerprint && log[k].recorded == e.recorded
  }

  /** Every entry of the table was put there by a `begin` that was told to go ahead, or a `finish`. */
  lemma {:induction false} EntryHasCause(p: Policy, log: seq<Call>, slot: Slot) returns (k: nat)
    requires slot in TableAfter(p, log)
    ensures var e := TableAfter(p, log)[slot];
            if e.InFlight? then Reserves(p, log, k, slot, e.fingerprint, e.since) else Records(p, log, k, slot, e)
  {
    var n := |log| - 1;
    var before := TableAfter(p, log[..n]);
    if slot in before && before[slot] == TableAfter(p, log)[slot] {
      k := EntryHasCause(p, log[..n], slot);
      assert log[..n][..k] == log[..k];
    } else {
      k := n;
    }
  }

  /** A key is blocked only by a reservation younger than the timeout, and replays only an outcome
      younger than the retention, of equal fingerprint; a mismatch is only reported against one of
      another fingerprint. So a holder that died blocks its key for less than the timeout. */
  lemma AnswersAreRecent(p: Policy, log: seq<Call>, i: nat)
    requires i < |log| && log[i].Begin?
    ensures AnswerAt(p, log, i) == Busy ==> exists k | 0 <= k < i ::
              Reserves(p, log, k, log[i].slot, p.fingerprint(log[i].body), log[k].now)
              && log[i].now < log[k].now + p.reservationTimeout
    ensures AnswerAt(p, log, i).Replay? ==> exists k | 0 <= k < i ::
              && log[k].Finish? && log[k].slot == log[i].slot && log[k].recorded == AnswerAt(p, log, i).recorded
              && p.fingerprint(log[k].body) == p.fingerprint(log[i].body)
              && log[i].now < log[k].now + p.retention
    ensures AnswerAt(p, log, i) == BodyMismatch ==> exists k | 0 <= k < i ::
              && (log[k].Begin? || log[k].Finish?) && log[k].slot == log[i].slot
              && p.fingerprint(log[k].body) != p.fingerprint(log[i].body)
              && log[i].now < log[k].now + (if log[k].Begin? then p.reservationTimeout else p.retention)
  {
    var slot := log[i].slot;
    if slot in TableAfter(p, log[..i]) {
      var k := EntryHasCause(p, log[..i], slot);
      assert log[..i][k] == log[k] && log[..i][..k] == log[..k];
    }
  }
}
