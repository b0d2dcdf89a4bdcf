/** The token service: which keys it accepts, and revocations that are forgotten once the token
    would have expired anyway. */
module Tokens {
  import opened Wrappers
  import opened KeyList

  datatype Claims = Claims(sub: string, username: string, jti: string, exp: nat, iat: nat)

  /** The key chosen by a `kid`: the last one of the list that carries it. */
  function KeyFor(keys: seq<KeyMaterial>, kid: string): Option<string> {
    if keys == [] then None
    else
      var n := |keys| - 1;
      if keys[n].kid == kid then Some(keys[n].secret) else KeyFor(keys[..n], kid)
  }

  function Lookup(table: map<string, string>, kid: string): Option<string> {
    if kid in table then Some(table[kid]) else None
  }

  /** The claims of a token issued at `now`. */
  function ClaimsAt(ttl: nat, user: string, username: string, jti: string, now: nat): Claims {
    Claims(user, username, jti, now + ttl, now)
  }

  function Prune(revoked: map<string, nat>, now: nat): map<string, nat> {
    map jti | jti in revoked && revoked[jti] > now :: revoked[jti]
  }

  function Revoked(revoked: map<string, nat>, claims: Claims, now: nat): map<string, nat> {
    Prune(revoked, now)[claims.jti := claims.exp]
  }

  /** One logout: the token it revokes and the clock reading it prunes by. The clock is read before
      the list is locked, so a log need not be in clock order. */
  datatype Revocation = Revocation(claims: Claims, now: nat)

  function ListAfter(log: seq<Revocation>): map<string, nat> {
    if log == [] then map[]
    else
      var n := |log| - 1;
      Revoked(ListAfter(log[..n]), log[n].claims, log[n].now)
  }

  /** Tokens are opaque; `header` and `decode` stand for the JWT library. */
  class TokenService<Token> {
    const activeKid: string
    const activeSecret: string
    const ttl: nat
    const header: Token -> Option<Option<string>>
    const decode: (Token, string) -> Option<Claims>
    var decoding: map<string, string>
    var revoked: map<string, nat>

    /** Every revocation so far, in the order they took the lock. */
    ghost var log: seq<Revocation>

    ghost predicate Valid()
      reads this
    {
      revoked == ListAfter(log)
    }

    constructor (active: KeyMaterial, retired: seq<KeyMaterial>, ttl: nat,
                 header: Token -> Option<Option<string>>, decode: (Token, string) -> Option<Claims>)
      ensures Valid() && log == []
      ensures activeKid == active.kid && activeSecret == active.secret && this.ttl == ttl
      ensures this.header == header && this.decode == decode
      ensures forall kid :: Lookup(decoding, kid) == KeyFor([active] + retired, kid)
    {
      var keys := [active] + retired;
      var table: map<string, string> := map[];
      for i := 0 to |keys|
        invariant forall kid :: Lookup(table, kid) == KeyFor(keys[..i], kid)
      {
        assert keys[..i + 1][..i] == keys[..i];
        table := table[keys[i].kid := keys[i].secret];
      }
      assert keys[..|keys|] == keys;
      this.activeKid, this.activeSecret, this.ttl := active.kid, active.secret, ttl;
      this.header, this.decode := header, decode;
      decoding, revoked, log := table, map[], [];
    }

    /** The claims a token issued at `now` carries. */
    function Issue(user: string, username: string, jti: string, now: nat): (claims: Claims)
      ensures claims.sub == user && claims.username == username && claims.jti == jti
      ensures claims.iat == now && claims.exp - claims.iat == ttl
    {
      ClaimsAt(ttl, user, username, jti, now)
    }

    /** Accepts a token exactly when its key id is known, the library accepts it under that key, and
        its id is not on the list. */
    method Verify(token: Token) returns (claims: Option<Claims>)
      ensures claims.Some? <==>
                && header(token).Some? && header(token).value.Some?
                && header(token).value.value in decoding
                && decode(token, decoding[header(token).value.value]).Some?
                && decode(token, decoding[header(token).value.value]).value.jti !in revoked
      ensures claims.Some? ==> claims == decode(token, decoding[header(token).value.value])
    {
      var kid := header(token);
      if kid.None? || kid.value.None? || kid.value.value !in decoding {
        return None;
      }
      claims := decode(token, decoding[kid.value.value]);
      if claims.Some? && claims.value.jti in revoked {
        claims := None;
      }
    }

    /** Forgets exactly the other tokens that have expired, and lists this one until its expiry. */
    method Revoke(claims: Claims, now: nat)
      requires Valid()
      modifies this
      ensures Valid() && log == old(log) + [Revocation(claims, now)]
      ensures claims.jti in revoked && revoked[claims.jti] == claims.exp
      ensures forall jti | jti != claims.jti :: jti in revoked <==> jti in old(revoked) && old(revoked)[jti] > now
      ensures forall jti | jti in revoked && jti != claims.jti :: revoked[jti] == old(revoked)[jti]
      ensures decoding == old(decoding)
    {
      revoked := map jti | jti in revoked && revoked[jti] > now :: revoked[jti];
      revoked := revoked[claims.jti := claims.exp];
      assert (log + [Revocation(claims, now)])[..|log|] == log;
      log := log + [Revocation(claims, now)];
    }

    /** Every revoked token is one of `issued`, and those were issued here. */
    ghost predicate OnlyIssued(issued: set<Claims>)
      reads this
    {
      && (forall r | r in log :: r.claims in issued)
      && (forall c | c in issued :: c == Issue(c.sub, c.username, c.jti, c.iat))
    }

    /** Bounded by issuance rate times lifetime, when only tokens of this service are revoked. */
    method RevokedCount(ghost issued: set<Claims>) returns (n: nat)
      requires Valid()
      ensures n == |revoked|
      ensures log != [] && OnlyIssued(issued) ==>
                n <= 1 + |set c | c in issued && c.iat + ttl > log[|log| - 1].now|
    {
      n := |revoked|;
      if log != [] && OnlyIssued(issued) { ListIsBounded(log, issued, ttl); }
    }
  }

  // ----- key rotation

  /** The active key is the one looked up for its own tokens exactly when no retired key reuses its
      id, or the last one that does has the same secret. */
  lemma ActiveKeyIsUsedExactly(active: KeyMaterial, retired: seq<KeyMaterial>)
    ensures KeyFor([active] + retired, active.kid) == Some(active.secret) <==>
            KeyFor(retired, active.kid) in {None, Some(active.secret)}
  {
    KeyForJoined([active], retired, active.kid);
    assert [active][..0] == [];
  }

  /** One retired key under the active id is enough: its secret is looked up for fresh tokens. */
  lemma RetiredKeyShadowsActive(kid: string, secret: string, other: string)
    requires secret != other
    ensures KeyFor([KeyMaterial(kid, secret)] + [KeyMaterial(kid, other)], kid) == Some(other)
  {
    KeyForJoined([KeyMaterial(kid, secret)], [KeyMaterial(kid, other)], kid);
  }

  lemma {:induction false} KeyForJoined(a: seq<KeyMaterial>, b: seq<KeyMaterial>, kid: string)
    ensures KeyFor(a + b, kid) == if KeyFor(b, kid).Some? then KeyFor(b, kid) else KeyFor(a, kid)
  {
    if b == [] {
      assert a + b == a;
    } else {
      assert (a + b)[..|a + b| - 1] == a + b[..|b| - 1];
      KeyForJoined(a, b[..|b| - 1], kid);
    }
  }

  /** Rotation is an overlap: with the old key retired and the new one active under distinct ids,
      tokens of both are looked up under the key that signed them. */
  lemma RotationOverlaps(before: KeyMaterial, after: KeyMaterial, older: seq<KeyMaterial>)
    requires before.kid != after.kid && forall k | k in older :: k.kid !in {before.kid, after.kid}
    ensures KeyFor([after] + ([before] + older), after.kid) == Some(after.secret)
    ensures KeyFor([after] + ([before] + older), before.kid) == Some(before.secret)
  {
    KeyForJoined([after], [before] + older, after.kid);
    KeyForJoined([after], [before] + older, before.kid);
    KeyForJoined([before], older, after.kid);
    KeyForJoined([before], older, before.kid);
    UnknownKid(older, after.kid);
    UnknownKid(older, before.kid);
    assert [after][..0] == [] && [before][..0] == [];
  }

  lemma {:induction false} UnknownKid(keys: seq<KeyMaterial>, kid: string)
    ensures KeyFor(keys, kid).None? <==> forall k | k in keys :: k.kid != kid
  {
    if keys != [] {
      var n := |keys| - 1;
      UnknownKid(keys[..n], kid);
      assert keys == keys[..n] + [keys[n]];
    }
  }

  // ----- revocation with pruning

  /** A revocation that no later one has undone: no later prune read a clock at or past the token's
      expiry, and none revoked the same id again. */
  ghost predicate Stands(log: seq<Revocation>, k: nat) {
    && k < |log|
    && forall i | k < i < |log| :: log[i].now < log[k].claims.exp && log[i].claims.jti != log[k].claims.jti
  }

  lemma {:induction false} StandingIsListed(log: seq<Revocation>, k: nat)
    requires Stands(log, k)
    ensures log[k].claims.jti in ListAfter(log) && ListAfter(log)[log[k].claims.jti] == log[k].claims.exp
  {
    var n := |log| - 1;
    if k < n {
      assert Stands(log[..n], k);
      StandingIsListed(log[..n], k);
    }
  }

  lemma {:induction false} EntryHasCause(log: seq<Revocation>, jti: string) returns (k: nat)
    requires jti in ListAfter(log)
    ensures Stands(log, k) && log[k].claims.jti == jti && log[k].claims.exp == ListAfter(log)[jti]
  {
    var n := |log| - 1;
    if jti == log[n].claims.jti {
      k := n;
    } else {
      k := EntryHasCause(log[..n], jti);
    }
  }

  /** What is on the list, exactly, in whatever order overlapping logouts read the clock and take
      the lock. */
  lemma ListIsStandingRevocations(log: seq<Revocation>, jti: string, exp: nat)
    ensures jti in ListAfter(log) && ListAfter(log)[jti] == exp <==>
            exists k: nat :: Stands(log, k) && log[k].claims.jti == jti && log[k].claims.exp == exp
  {
    if jti in ListAfter(log) && ListAfter(log)[jti] == exp {
      var k := EntryHasCause(log, jti);
    }
    if k: nat :| Stands(log, k) && log[k].claims.jti == jti && log[k].claims.exp == exp {
      StandingIsListed(log, k);
    }
  }

  /** No two tokens share an id. */
  ghost predicate UniqueIds(log: seq<Revocation>) {
    forall i, j | 0 <= i < |log| && 0 <= j < |log| && log[i].claims.jti == log[j].claims.jti ::
      log[i].claims == log[j].claims
  }

  /** Pruning never forgets too early: a revoked token is on the list for as long as no clock read
      since shows its expiry, whatever else is revoked, in whatever order. */
  lemma {:induction false} RevokedUntilExpiry(log: seq<Revocation>, k: nat)
    requires UniqueIds(log) && k < |log|
    requires forall i | k < i < |log| :: log[i].now < log[k].claims.exp
    ensures log[k].claims.jti in ListAfter(log) && ListAfter(log)[log[k].claims.jti] == log[k].claims.exp
  {
    var n := |log| - 1;
    if k < n {
      assert log[..n][k] == log[k];
      RevokedUntilExpiry(log[..n], k);
    }
  }

  /** In terms of issuance: a token revoked at any time stays revoked for the whole lifetime it was
      issued with, counted from its issue. */
  lemma RevokedForItsLifetime(log: seq<Revocation>, k: nat, ttl: nat, user: string, username: string,
                              jti: string, issued: nat)
    requires UniqueIds(log) && k < |log| && log[k].claims == ClaimsAt(ttl, user, username, jti, issued)
    requires forall i | k < i < |log| :: log[i].now < issued + ttl
    ensures jti in ListAfter(log) && ListAfter(log)[jti] == issued + ttl
  {
    RevokedUntilExpiry(log, k);
  }

  /** Overlapping logouts can prune by a clock ahead of the last one's: a token expiring at 12 is gone
      although the last prune read 11. */
  lemma PrunedAheadOfTheLastReading(a: Claims, b: Claims, c: Claims)
    requires a.exp == 12 && a.jti != b.jti && a.jti != c.jti
    ensures var log := [Revocation(a, 10), Revocation(b, 13), Revocation(c, 11)];
            a.jti !in ListAfter(log) && log[|log| - 1].now < a.exp
  {
    var log := [Revocation(a, 10), Revocation(b, 13), Revocation(c, 11)];
    assert log[..2] == [Revocation(a, 10), Revocation(b, 13)] && log[..2][..1] == [Revocation(a, 10)];
    assert a.jti !in ListAfter(log[..2]);
  }

  /** The list is bounded by issuance rate times lifetime: after each revocation it holds at most
      one entry more than the number of tokens issued in the last `ttl` seconds. */
  lemma ListIsBounded(log: seq<Revocation>, issued: set<Claims>, ttl: nat)
    requires log != []
    requires forall c | c in issued :: c == ClaimsAt(ttl, c.sub, c.username, c.jti, c.iat)
    requires forall i | 0 <= i < |log| :: log[i].claims in issued
    ensures |ListAfter(log)| <= 1 + |set c | c in issued && c.iat + ttl > log[|log| - 1].now|
  {
    var now, last := log[|log| - 1].now, log[|log| - 1].claims.jti;
    var recent := set c | c in issued && c.iat + ttl > now;
    var ids := set c | c in recent :: c.jti;
    ImageSize(recent);
    forall jti | jti in ListAfter(log) ensures jti in ids + {last} {
      var k := EntryHasCause(log, jti);
      if k != |log| - 1 { assert log[k].claims in issued && log[k].claims in recent; }
    }
    assert ListAfter(log).Keys <= ids + {last};
    StringSubsetSize(ListAfter(log).Keys, ids + {last});
  }

  lemma {:induction false} ImageSize(s: set<Claims>)
    ensures |set c | c in s :: c.jti| <= |s|
    decreases |s|
  {
    var ids := set c | c in s :: c.jti;
    if s == {} {
      assert ids == {};
    } else {
      var x :| x in s;
      ImageSize(s - {x});
      var rest := set c | c in s - {x} :: c.jti;
      assert ids <= rest + {x.jti};
      StringSubsetSize(ids, rest + {x.jti});
    }
  }

  lemma StringSubsetSize(a: set<string>, b: set<string>)
    requires a <= b
    ensures |a| <= |b|
  {
    assert b == a + (b - a);
  }
}
