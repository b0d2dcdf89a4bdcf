/** The `GET` and `PUT /profile` handlers: entity tags, preconditions and status codes. */
module ConditionalPut {
  import opened Wrappers
  import opened StoreContract
  import EntityTag

  /** The `If-Match` header: absent, not readable as text, or some text. */
  datatype IfMatch = NoHeader | Unreadable | Text(value: string)

  datatype Response = Response(status: nat, etag: Option<string>, body: Option<Profile>)

  datatype Handled = Handled(store: Store, response: Response)

  function Error(status: nat): Response { Response(status, None, None) }

  function WithEtag(profile: Profile): Response {
    Response(200, Some(EntityTag.Display(profile.version)), Some(profile))
  }

  function HandleGet(s: Store, user: UserId): Response
    requires WellFormed(s)
  {
    match Apply(s, Get(user)).outcome
    case Found(profile) => WithEtag(profile)
    case _ => Error(404)
  }

  /** `PUT`: validate, read the precondition, then compare and swap. */
  function HandlePut(s: Store, user: UserId, header: IfMatch, input: ProfileInput, now: nat,
                     validate: ProfileInput -> bool): Handled
    requires WellFormed(s)
  {
    if !validate(input) then Handled(s, Error(422))
    else match header
      case NoHeader => Handled(s, Error(428))
      case Unreadable => Handled(s, Error(400))
      case Text(raw) =>
        match EntityTag.Parse(raw)
        case None => Handled(s, Error(400))
        case Some(expected) =>
          var e := Apply(s, Put(user, expected, input, now));
          match e.outcome
          case Applied(profile) => Handled(e.store, WithEtag(profile))
          case Stale(current) => Handled(e.store, Response(412, Some(EntityTag.Display(current)), None))
          case Missing => Handled(e.store, Error(404))
          case _ => Handled(e.store, Error(500))
  }

  /** A GET answers 200 exactly when there is a profile, with the tag of its version and what its newest
      revision holds, and 404 otherwise. */
  lemma ReadIsExact(s: Store, user: UserId)
    requires WellFormed(s)
    ensures var h := HandleGet(s, user);
            && h.status == (if user in s then 200 else 404)
            && (h.etag.Some? <==> user in s) && (h.body.Some? <==> user in s)
            && (user in s ==>
                  var newest := s[user][|s[user]| - 1];
                  && EntityTag.IsTagFor(h.etag.value, |s[user]|)
                  && h.body.value.userId == user && h.body.value.version == |s[user]|
                  && h.body.value.address == newest.address && h.body.value.phoneNumber == newest.phoneNumber)
  {
    ReadsShowTheLog(s, user);
    if user in s { TagOf(s, user); }
  }

  /** The tag of the stored version names it. */
  lemma TagOf(s: Store, user: UserId)
    requires WellFormed(s) && user in s
    ensures |s[user]| < U64_LIMIT && EntityTag.IsTagFor(EntityTag.Display(|s[user]|), |s[user]|)
  {
    assert s[user][|s[user]| - 1].version == |s[user]|;
    EntityTag.DisplayRoundTrips(|s[user]|);
    EntityTag.ParseAcceptsExactly(EntityTag.Display(|s[user]|), |s[user]|);
  }

  /** The concurrency contract in the status codes: a write happens exactly when the answer is 200,
      and that takes a valid body, a tag naming the stored version, and a counter that can advance. */
  lemma WritesExactlyOnMatch(s: Store, user: UserId, header: IfMatch, input: ProfileInput, now: nat,
                             validate: ProfileInput -> bool)
    requires WellFormed(s)
    ensures var h := HandlePut(s, user, header, input, now, validate);
            && (h.response.status == 200 <==>
                  && validate(input) && header.Text? && user in s
                  && EntityTag.IsTagFor(header.value, |s[user]|)
                  && |s[user]| + 1 < U64_LIMIT)
            && (h.response.status != 200 ==> h.store == s)
            && (h.response.status == 200 ==>
                  && user in h.store && s[user] < h.store[user] && |h.store[user]| == |s[user]| + 1
                  && h.response == HandleGet(h.store, user)
                  && h.response.body.Some? && h.response.body.value.Content() == input)
            && (h.response.status == 428 <==> validate(input) && header.NoHeader?)
            && (h.response.status == 412 <==>
                  && validate(input) && header.Text? && user in s
                  && exists v: Version :: EntityTag.IsTagFor(header.value, v) && v != |s[user]|)
            && (h.response.status == 404 <==>
                  && validate(input) && header.Text? && user !in s
                  && exists v: Version :: EntityTag.IsTagFor(header.value, v))
            && (h.response.status == 400 <==>
                  && validate(input)
                  && (header.Unreadable? ||
                      (header.Text? && forall v: Version :: !EntityTag.IsTagFor(header.value, v))))
            && (h.response.status == 422 <==> !validate(input))
            && (h.response.status == 500 <==>
                  && validate(input) && header.Text? && user in s
                  && EntityTag.IsTagFor(header.value, |s[user]|) && |s[user]| + 1 == U64_LIMIT)
            && h.response.status in {200, 400, 404, 412, 422, 428, 500}
  {
    if header.Text? {
      forall v: Version ensures EntityTag.Parse(header.value) == Some(v) <==> EntityTag.IsTagFor(header.value, v) {
        EntityTag.ParseAcceptsExactly(header.value, v);
      }
      if EntityTag.Parse(header.value).Some? {
        PutIsCompareAndSwap(s, user, EntityTag.Parse(header.value).value, input, now);
      }
    }
    if user in s { assert s[user][|s[user]| - 1].version == |s[user]|; }
  }

  /** An accepted PUT adds one revision that holds what was sent, and touches nothing else. */
  lemma AcceptedPutStoresInput(s: Store, user: UserId, header: IfMatch, input: ProfileInput, now: nat,
                               validate: ProfileInput -> bool)
    requires WellFormed(s) && HandlePut(s, user, header, input, now, validate).response.status == 200
    ensures var h := HandlePut(s, user, header, input, now, validate);
            && user in s && user in h.store && h.store == s[user := h.store[user]]
            && s[user] <= h.store[user] && |h.store[user]| == |s[user]| + 1
            && h.store[user][|s[user]|] == Revision(|s[user]| + 1, input.address, input.phoneNumber, now)
  {
    WritesExactlyOnMatch(s, user, header, input, now, validate);
    PutStoresInput(s, user, EntityTag.Parse(header.value).value, input, now);
  }

  /** A 412 carries the tag of the stored version, and no refusal shows a profile or another tag. */
  lemma RefusalsShowAtMostTheTag(s: Store, user: UserId, header: IfMatch, input: ProfileInput, now: nat,
                                 validate: ProfileInput -> bool)
    requires WellFormed(s)
    ensures var r := HandlePut(s, user, header, input, now, validate).response;
            && (r.status != 200 ==> r.body.None? && (r.etag.Some? <==> r.status == 412))
            && (r.status == 412 ==> user in s && EntityTag.IsTagFor(r.etag.value, |s[user]|))
  {
    WritesExactlyOnMatch(s, user, header, input, now, validate);
    if user in s { TagOf(s, user); }
    if header.Text? && EntityTag.Parse(header.value).Some? {
      PutIsCompareAndSwap(s, user, EntityTag.Parse(header.value).value, input, now);
    }
  }

  /** Quoting the tag of a 412 back, with no write in between, is applied without a re-read,
      unless the counter is exhausted. */
  lemma RetryWithWinnersTag(s: Store, user: UserId, header: IfMatch, input: ProfileInput, retry: ProfileInput,
                            now: nat, later: nat, validate: ProfileInput -> bool)
    requires WellFormed(s) && validate(retry)
    requires HandlePut(s, user, header, input, now, validate).response.status == 412
    ensures var refused := HandlePut(s, user, header, input, now, validate);
            && refused.response.etag.Some?
            && HandlePut(refused.store, user, Text(refused.response.etag.value), retry, later, validate).response.status
               == if |s[user]| + 1 < U64_LIMIT then 200 else 500
  {
    WritesExactlyOnMatch(s, user, header, input, now, validate);
    var current := |s[user]|;
    assert s[user][current - 1].version == current;
    EntityTag.DisplayRoundTrips(current);
    PutIsCompareAndSwap(s, user, current, retry, later);
  }

  /** The same holds for the tag of a GET. */
  lemma ReadThenWrite(s: Store, user: UserId, input: ProfileInput, now: nat, validate: ProfileInput -> bool)
    requires WellFormed(s) && validate(input) && user in s
    ensures HandleGet(s, user).status == 200 && HandleGet(s, user).etag.Some?
    ensures HandlePut(s, user, Text(HandleGet(s, user).etag.value), input, now, validate).response.status
            == if |s[user]| + 1 < U64_LIMIT then 200 else 500
  {
    var current := |s[user]|;
    assert s[user][current - 1].version == current;
    EntityTag.DisplayRoundTrips(current);
    PutIsCompareAndSwap(s, user, current, input, now);
  }

  /** `If-Match: *` and every other header with a foreign character never writes. */
  lemma WildcardNeverWrites(s: Store, user: UserId, raw: string, input: ProfileInput, now: nat,
                            validate: ProfileInput -> bool)
    requires WellFormed(s) && ('*' in raw || 'W' in raw || ',' in raw)
    ensures var h := HandlePut(s, user, Text(raw), input, now, validate);
            h.store == s && h.response.status == if validate(input) then 400 else 422
  {
    EntityTag.WildcardWeakAndListRejected(raw);
  }
}
