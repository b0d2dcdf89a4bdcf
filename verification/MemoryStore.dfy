/** The in-memory backend run one call at a time: a sharded map of records, each a published
    projection beside its revision log. Interleaved calls are the subject of MemoryMachine. */
module MemoryStore {
  import opened StoreContract
  import opened Bits
  import opened Sharding

  /** `current` is what readers load; `revisions` is what the mutex guards. */
  class Record {
    var current: Profile
    var revisions: seq<Revision>
    ghost const user: UserId

    constructor (ghost user: UserId, current: Profile, revisions: seq<Revision>)
      ensures this.user == user && this.current == current && this.revisions == revisions
    {
      this.user, this.current, this.revisions := user, current, revisions;
    }
  }

  lemma OneMoreIsWellFormed(view: Store, user: UserId, revision: Revision)
    requires WellFormed(view) && revision.version == if user in view then |view[user]| + 1 else 1
    ensures WellFormed(view[user := (if user in view then view[user] else []) + [revision]])
  {
  }

  lemma FirstIsWellFormed(view: Store, user: UserId, first: Revision)
    requires WellFormed(view) && first.version == INITIAL
    ensures WellFormed(view[user := [first]])
  {
  }

  /** The high half of a hash, masked. */
  function MaskedHash(hash: nat, mask: nat): (index: nat)
    ensures index <= mask
  {
    BitAnd(hash / 0x1_0000_0000, mask)
  }

  class InMemoryProfiles {
    const shards: array<map<UserId, Record>>
    const mask: nat
    /** The hash of a user id as a 64-bit word; nothing here depends on which hash it is. */
    const hash: UserId -> nat

    /** Where each user's record is: its `ShardOf`. */
    ghost const home: UserId -> nat

    /** The flat map of logs the shards stand for. */
    ghost var view: Store
    ghost var Repr: set<object>

    function ShardOf(user: UserId): (index: nat)
      ensures index <= mask
    {
      MaskedHash(hash(user), mask)
    }

    /** What never changes: a power of two of shards, and every user at home in one of them. */
    ghost predicate Shape() {
      && IsPowerOfTwo(mask + 1) && shards.Length == mask + 1
      && (forall u {:trigger ShardOf(u)} :: home(u) == ShardOf(u))
      && (forall u :: home(u) < shards.Length)
    }

    ghost predicate Valid()
      reads this, Repr
    {
      && this in Repr && shards in Repr && Shape()
      && WellFormed(view)
      && (forall u :: u in view <==> u in shards[home(u)])
      && (forall u | u in view :: shards[home(u)][u] in Repr && Holds(u, shards[home(u)][u]))
    }

    ghost predicate Holds(u: UserId, r: Record)
      requires u in view && WellFormed(view)
      reads this, r
    {
      && r.user == u
      && r.revisions == view[u]
      && r.current == Project(u, Last(view[u]))
    }

    constructor WithShards(shards: nat, hash: UserId -> nat)
      ensures Valid() && fresh(Repr)
      ensures view == map[] && this.hash == hash
      ensures mask + 1 >= shards && (this.mask == 0 || this.mask + 1 < 2 * shards)
    {
      var count := NextPowerOfTwo(if shards > 1 then shards else 1);
      RoundingGivesPowerOfTwo(if shards > 1 then shards else 1, 0);
      var table := new map<UserId, Record>[count](_ => map[]);
      this.shards, this.mask, this.hash := table, count - 1, hash;
      home := u => MaskedHash(hash(u), count - 1);
      view := map[];
      new;
      forall u ensures home(u) == MaskedHash(hash(u), count - 1) { }
      Repr := {this, this.shards};
    }

    /** The mask picks the shard a division would: the high half of the hash modulo the count. */
    lemma ShardOfIsRemainder(user: UserId)
      requires Valid()
      ensures ShardOf(user) == hash(user) / 0x1_0000_0000 % shards.Length
    {
      ShardIndexIsRemainder(hash(user) / 0x1_0000_0000, mask + 1);
    }

    /** Looks up one profile's record. */
    method Slot(user: UserId) returns (slot: Record?)
      requires Valid()
      ensures slot == null <==> user !in view
      ensures slot != null ==> user in view && slot == shards[ShardOf(user)][user] && Holds(user, slot)
    {
      var shard := shards[ShardOf(user)];
      slot := if user in shard then shard[user] else null;
    }

    method Create(user: UserId, input: ProfileInput, now: nat) returns (outcome: Outcome)
      requires Valid()
      modifies Repr
      ensures Valid() && fresh(Repr - old(Repr))
      ensures Effect(view, outcome) == Apply(old(view), Op.Create(user, input, now))
    {
      var shard := shards[ShardOf(user)];
      if user in shard {
        return AlreadyThere;
      }
      var first := MakeRevision(INITIAL, input, now);
      var current := Project(user, first);
      var slot := new Record(user, current, [first]);
      Adopt(slot);
      Insert(slot, user, first);
      outcome := Created(current);
    }

    /** A new record becomes part of the representation. */
    ghost method Adopt(slot: Record)
      requires Valid()
      modifies this`Repr
      ensures Valid() && Repr == old(Repr) + {slot}
    {
      Repr := Repr + {slot};
    }

    /** Puts a new user's record into its shard. */
    method Insert(slot: Record, user: UserId, first: Revision)
      requires Valid() && user !in view && slot in Repr
      requires first.version == INITIAL && slot.user == user
      requires slot.current == Project(user, first) && slot.revisions == [first]
      modifies this`view, shards
      ensures Valid() && view == old(view)[user := [first]]
    {
      FirstIsWellFormed(view, user, first);
      var index := ShardOf(user);
      shards[index] := shards[index][user := slot];
      view := view[user := [first]];
      assert Last(view[user]) == first;
      forall u ensures u in view <==> u in shards[home(u)] {
        assert u in old(view) <==> u in old(shards[home(u)]);
      }
    }

    method Get(user: UserId) returns (outcome: Outcome)
      requires Valid()
      ensures Effect(view, outcome) == Apply(view, Op.Get(user))
    {
      var slot := Slot(user);
      outcome := if slot == null then Absent else Found(slot.current);
    }

    method Update(user: UserId, expected: Version, input: ProfileInput, now: nat) returns (outcome: Outcome)
      requires Valid()
      modifies Repr
      ensures Valid() && Repr == old(Repr)
      ensures Effect(view, outcome) == Apply(old(view), Put(user, expected, input, now))
    {
      var slot := Slot(user);
      if slot == null {
        return Missing;
      }
      var currentVersion := slot.current.version;
      if currentVersion != expected {
        return Stale(currentVersion);
      }
      var next := CheckedNext(currentVersion);
      if next.None? {
        return VersionExhausted;
      }
      var applied := MakeRevision(next.value, input, now);
      var current := Project(user, applied);
      Publish(slot, user, applied);
      outcome := Applied(current);
    }

    /** Pushes a revision on a user's log and publishes its projection. */
    method Publish(slot: Record, user: UserId, applied: Revision)
      requires Valid() && user in view && slot == shards[ShardOf(user)][user]
      requires applied.version == |view[user]| + 1
      modifies slot, this`view
      ensures Valid() && Repr == old(Repr)
      ensures view == old(view)[user := old(view)[user] + [applied]]
    {
      OneMoreIsWellFormed(view, user, applied);
      slot.revisions := slot.revisions + [applied];
      slot.current := Project(user, applied);
      view := view[user := view[user] + [applied]];
      assert Last(view[user]) == applied;
      forall u | u in view ensures Holds(u, shards[home(u)][u]) {
        if u != user { assert old(Holds(u, shards[home(u)][u])); }
      }
    }

    method History(user: UserId) returns (outcome: Outcome)
      requires Valid()
      ensures Effect(view, outcome) == Apply(view, Audit(user))
    {
      var slot := Slot(user);
      outcome := Log(if slot == null then [] else slot.revisions);
    }
  }
}
