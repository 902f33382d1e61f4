/** The Avito service object: the account table it mutates in place, the file it
    persists that table to, the Authorization header of its API client, the
    Redis store of dedup marks, and the processing of one apply webhook.

    The Avito API and the downstream webhook are not called: each API call the
    webhook processing makes is an input reply (`AvitoReplies`), and every POST
    to the downstream webhook and every Redis SET is recorded, in order, in the
    `effects` log. The clock is the `now` parameter. */
module AvitoRelay {
  import opened JsValue
  import opened RedisStore
  import opened AvitoContacts
  import opened AvitoDedup
  import opened AvitoAccounts
  import opened AvitoMerge

  /** An outward action of the service, in the order it happens. */
  datatype Effect =
    | WebhookPost(body: Value)   // a POST to the downstream webhook
    | RedisSet(key: string)      // a SET of a dedup mark

  /** The application of a `get_by_ids` reply, reduced to what the processing
      reads: the applicant object, the raw phone values (None when the reply has
      no phone list) and the vacancy id. */
  datatype Application = Application(applicant: Value, phones: Option<seq<string>>, vacancyId: int)

  /** How the Redis calls of one delivery end: the GET of the application key,
      the GET of the applicant key, then the SET of each; Some(message) when
      that call is rejected. */
  datatype RedisReplies = RedisReplies(getApply: Option<string>, getApplicant: Option<string>,
                                       setApply: Option<string>, setApplicant: Option<string>)

  /** The replies of the calls one webhook can make: the token request, the
      application lookup (None when `applies` is missing or empty), the vacancy,
      the resume and its contacts, and the Redis calls. */
  datatype AvitoReplies = AvitoReplies(
    token: Result<TokenGrant, HttpError>,
    application: Result<Option<Application>, HttpError>,
    vacancy: Result<Value, HttpError>,
    resume: Result<Value, HttpError>,
    contacts: Result<ContactsReply, HttpError>,
    redisCalls: RedisReplies)

  /** The applicant id is a string or a number, as the application type
      declares, never an array. */
  predicate WellFormed(replies: AvitoReplies) {
    replies.application.Ok? && replies.application.value.Some? ==>
      !Prop(replies.application.value.value.applicant, "id").Arr?
  }

  /** The body forwarded for a processed application. */
  function ApplyResponse(clientId: string, applyId: string, vacancy: Value, resume: Value): (r: Value)
    ensures r.Obj? && "resume" in r.fields && "error" !in r.fields
  {
    Obj(map["clientId" := Str(clientId), "applyId" := Str(applyId), "vacancy" := vacancy, "resume" := resume])
  }

  /** The body forwarded when processing fails; the stack trace is not modelled. */
  function ErrorResponse(clientId: string, applyId: string, e: Exception): (r: Value)
    ensures r.Obj? && "error" in r.fields && "resume" !in r.fields
  {
    Obj(map["clientId" := Str(clientId), "applyId" := Str(applyId), "error" := Str(Message(e)), "errorDetails" := Undefined])
  }

  /** The TypeError of reading `.data` from an applicant that is null or undefined. */
  function ReadDataError(applicant: Value): Exception {
    TypeError("Cannot read properties of " + (if applicant.Null? then "null" else "undefined") + " (reading 'data')")
  }

  /** What one webhook does: its result, the account table afterwards, the
      effects in order, the Redis store afterwards, and the Authorization header
      it installed (None when it installed none). */
  datatype Outcome = Outcome(
    result: Result<string, Exception>,
    table: seq<Account>,
    effects: seq<Effect>,
    redis: Store,
    header: Option<string>)

  /** The catch branch: the error payload is sent and the error rethrown. */
  function Failed(table: seq<Account>, redis: Store, header: Option<string>,
                  clientId: string, applyId: string, e: Exception): (o: Outcome)
    ensures o.table == table && o.header == header
    ensures o.result == Err(e) && o.redis == redis
  {
    Outcome(Err(e), table, [WebhookPost(ErrorResponse(clientId, applyId, e))], redis, header)
  }

  /** processApplyWebhook as a function of the state it starts from. */
  function ApplyWebhook(table: seq<Account>, redis: Store, clientId: string, applyId: string, now: int,
                        replies: AvitoReplies): Outcome
    requires WellFormed(replies)
  {
    match AccountTokens(table, clientId, now, replies.token)
    case Err(e) => Failed(table, redis, None, clientId, applyId, e)
    case Ok((t, account)) => Enrich(t, redis, Some("Bearer " + account.accessToken), clientId, applyId, replies)
  }

  /** Why processApplyWebhook fails after the token is in place, if it does:
      the application call fails or finds nothing, the vacancy call fails, or
      the applicant is null or undefined, so that reading its `data` throws. */
  function EnrichFailure(replies: AvitoReplies): (r: Option<Exception>)
    ensures r.None? <==>
              replies.application.Ok? && replies.application.value.Some? && replies.vacancy.Ok? &&
              !replies.application.value.value.applicant.Undefined? && !replies.application.value.value.applicant.Null?
    ensures replies.application.Err? ==> r == Some(Http(replies.application.error))
  {
    match replies.application
    case Err(h) => Some(Http(h))
    case Ok(None) => Some(NotFound("Application not found"))
    case Ok(Some(app)) =>
      match replies.vacancy
      case Err(h) => Some(Http(h))
      case Ok(_) =>
        if app.applicant.Undefined? || app.applicant.Null? then Some(ReadDataError(app.applicant)) else None
  }

  /** The body forwarded for an application that was fetched and merged. */
  function Forwarded(clientId: string, applyId: string, replies: AvitoReplies): Value
    requires EnrichFailure(replies).None?
  {
    var app := replies.application.value.value;
    var resume := ResumeLayer(Prop(app.applicant, "resume_id"), replies.resume, replies.contacts);
    ApplyResponse(clientId, applyId, replies.vacancy.value, MergeApplicant(app.applicant, resume, app.phones))
  }

  /** The part of processApplyWebhook after the token is in place. */
  function Enrich(table: seq<Account>, redis: Store, header: Option<string>, clientId: string, applyId: string,
                  replies: AvitoReplies): Outcome
    requires WellFormed(replies)
  {
    match EnrichFailure(replies)
    case Some(e) => Failed(table, redis, header, clientId, applyId, e)
    case None =>
      var app := replies.application.value.value;
      Deliver(table, redis, header, clientId, applyId, ApplyKey(applyId),
              ApplicantKey(Num(app.vacancyId), Prop(app.applicant, "id")), Forwarded(clientId, applyId, replies),
              replies.redisCalls)
  }

  /** isDuplicate on the application key `k1` and the applicant key `k2`: the
      second GET is made only when the first finds no truthy value, and a
      rejected GET is thrown. */
  function DedupCheck(redis: Store, k1: string, k2: string, calls: RedisReplies): (r: Result<bool, Exception>)
    ensures r.Ok? ==> r.value == EitherMarked(redis, k1, k2)
    ensures r.Err? <==> calls.getApply.Some? || (!Truthy(Get(redis, k1)) && calls.getApplicant.Some?)
    ensures calls.getApply.Some? ==> r == Err(RedisError(calls.getApply.value))
    ensures calls.getApply.None? && !Truthy(Get(redis, k1)) && calls.getApplicant.Some? ==>
              r == Err(RedisError(calls.getApplicant.value))
  {
    if calls.getApply.Some? then Err(RedisError(calls.getApply.value))
    else if Truthy(Get(redis, k1)) then Ok(true)
    else if calls.getApplicant.Some? then Err(RedisError(calls.getApplicant.value))
    else Ok(Truthy(Get(redis, k2)))
  }

  /** What markApplicationProcessed leaves: the store, the SETs that took
      effect, and the rejection that stopped it, if any. */
  datatype MarkRun = MarkRun(redis: Store, sets: seq<Effect>, failure: Option<Exception>)

  /** markApplicationProcessed: the application key is set to 1 first, then the
      applicant key; a rejected SET is thrown, and a second SET is not made
      after a rejected first one. */
  function MarkKeys(redis: Store, k1: string, k2: string, calls: RedisReplies): (m: MarkRun)
    ensures m.failure.None? <==> calls.setApply.None? && calls.setApplicant.None?
    ensures m.failure.None? ==> m.redis == MarkBoth(redis, k1, k2) && m.sets == [RedisSet(k1), RedisSet(k2)]
    ensures calls.setApply.Some? ==>
              m == MarkRun(redis, [], Some(RedisError(calls.setApply.value)))
    ensures calls.setApply.None? && calls.setApplicant.Some? ==>
              m == MarkRun(Set(redis, k1, "1", None), [RedisSet(k1)], Some(RedisError(calls.setApplicant.value)))
  {
    if calls.setApply.Some? then MarkRun(redis, [], Some(RedisError(calls.setApply.value)))
    else if calls.setApplicant.Some? then
      MarkRun(Set(redis, k1, "1", None), [RedisSet(k1)], Some(RedisError(calls.setApplicant.value)))
    else MarkRun(MarkBoth(redis, k1, k2), [RedisSet(k1), RedisSet(k2)], None)
  }

  /** The dedup check, then the POST and the two marks; a rejected Redis call
      goes to the catch branch, after the POST when it is a SET. */
  function Deliver(table: seq<Account>, redis: Store, header: Option<string>, clientId: string, applyId: string,
                   k1: string, k2: string, response: Value, calls: RedisReplies): (o: Outcome)
    ensures o.table == table && o.header == header
    ensures o.result == Ok("ok") || o.result == Ok("duplicate") || o.result.Err?
    ensures o.result.Err? ==>
              o.effects != [] && o.effects[|o.effects| - 1] == WebhookPost(ErrorResponse(clientId, applyId, o.result.error))
  {
    match DedupCheck(redis, k1, k2, calls)
    case Err(e) => Failed(table, redis, header, clientId, applyId, e)
    case Ok(duplicate) =>
      if duplicate then Outcome(Ok("duplicate"), table, [], redis, header)
      else
        var m := MarkKeys(redis, k1, k2, calls);
        if m.failure.Some? then
          Outcome(Err(m.failure.value), table,
                  [WebhookPost(response)] + m.sets + [WebhookPost(ErrorResponse(clientId, applyId, m.failure.value))],
                  m.redis, header)
        else Outcome(Ok("ok"), table, [WebhookPost(response)] + m.sets, m.redis, header)
  }

  lemma EnrichKeepsTableAndHeader(table: seq<Account>, redis: Store, header: Option<string>, clientId: string,
                                  applyId: string, replies: AvitoReplies)
    requires WellFormed(replies)
    ensures Enrich(table, redis, header, clientId, applyId, replies).table == table
    ensures Enrich(table, redis, header, clientId, applyId, replies).header == header
  {
  }

  class AvitoService {
    var authStore: seq<Account>
    /** What the auth file holds: the table as it was last written. */
    ghost var authFile: seq<Account>
    var redis: Store
    /** The Authorization header of the API client, once one was set. */
    var authorization: Option<string>
    var effects: seq<Effect>

    /** The file agrees with the table in memory. */
    ghost predicate Valid()
      reads this
    {
      authFile == authStore
    }

    /** The constructor reads the auth file (readAuthFile); with no file the
        table starts empty and an empty file is written. */
    constructor(store: Store, file: Option<seq<Account>>)
      ensures Valid()
      ensures authStore == (if file.Some? then file.value else [])
      ensures redis == store && authorization == None && effects == []
    {
      authStore := if file.Some? then file.value else [];
      authFile := authStore;
      redis := store;
      authorization := None;
      effects := [];
    }

    method AddAccount(clientId: string, clientSecret: string) returns (r: Result<(), Exception>)
      requires Valid()
      modifies this
      ensures Valid()
      ensures AvitoAccounts.AddAccount(old(authStore), clientId, clientSecret).Ok? ==>
                r.Ok? && authStore == AvitoAccounts.AddAccount(old(authStore), clientId, clientSecret).value
      ensures AvitoAccounts.AddAccount(old(authStore), clientId, clientSecret).Err? ==>
                r == Err(AvitoAccounts.AddAccount(old(authStore), clientId, clientSecret).error) && authStore == old(authStore)
      ensures redis == old(redis) && authorization == old(authorization) && effects == old(effects)
    {
      var candidate := GetAccount(authStore, clientId);
      if candidate.Some? {
        return Err(BadRequest("Account already exists"));
      }
      authStore := authStore + [NewAccount(clientId, clientSecret)];
      authFile := authStore;
      return Ok(());
    }

    method DeleteAccount(clientId: string) returns (r: Result<(), Exception>)
      requires Valid()
      modifies this
      ensures Valid()
      ensures AvitoAccounts.DeleteAccount(old(authStore), clientId).Ok? ==>
                r.Ok? && authStore == AvitoAccounts.DeleteAccount(old(authStore), clientId).value
      ensures AvitoAccounts.DeleteAccount(old(authStore), clientId).Err? ==>
                r == Err(AvitoAccounts.DeleteAccount(old(authStore), clientId).error) && authStore == old(authStore)
      ensures redis == old(redis) && authorization == old(authorization) && effects == old(effects)
    {
      var index := FindAccount(authStore, clientId);
      if index.None? {
        return Err(NotFound(NotFoundMessage));
      }
      authStore := authStore[..index.value] + authStore[index.value + 1..];
      authFile := authStore;
      return Ok(());
    }

    /** requestTokens on the account at `index`, which it updates in place. */
    method RequestTokens(index: nat, reply: Result<TokenGrant, HttpError>) returns (r: Result<(), Exception>)
      requires index < |authStore|
      modifies this
      ensures AvitoAccounts.RequestTokens(old(authStore[index]), reply).Ok? ==>
                r.Ok? && authStore == old(authStore)[index := AvitoAccounts.RequestTokens(old(authStore[index]), reply).value]
      ensures AvitoAccounts.RequestTokens(old(authStore[index]), reply).Err? ==>
                r == Err(AvitoAccounts.RequestTokens(old(authStore[index]), reply).error) && authStore == old(authStore)
      ensures authFile == old(authFile) && redis == old(redis) && authorization == old(authorization) && effects == old(effects)
    {
      if reply.Err? {
        return Err(Http(reply.error));
      }
      var account := authStore[index];
      account := account.(accessToken := reply.value.accessToken);
      account := account.(expiresIn := reply.value.expiresInSeconds * 1000);
      authStore := authStore[index := account];
      return Ok(());
    }

    method GetAccountTokens(clientId: string, now: int, reply: Result<TokenGrant, HttpError>) returns (r: Result<Account, Exception>)
      requires Valid()
      modifies this
      ensures Valid()
      ensures AccountTokens(old(authStore), clientId, now, reply).Ok? ==>
                var (t, account) := AccountTokens(old(authStore), clientId, now, reply).value;
                r == Ok(account) && authStore == t && authorization == Some("Bearer " + account.accessToken)
      ensures AccountTokens(old(authStore), clientId, now, reply).Err? ==>
                r == Err(AccountTokens(old(authStore), clientId, now, reply).error) &&
                authStore == old(authStore) && authorization == old(authorization)
      ensures redis == old(redis) && effects == old(effects)
    {
      var index := FindAccount(authStore, clientId);
      if index.None? {
        return Err(NotFound(NotFoundMessage));
      }
      var i := index.value;
      if NeedsRefresh(authStore[i], now) {
        var requested := RequestTokens(i, reply);
        if requested.Err? {
          return Err(requested.error);
        }
      }
      authFile := authStore;
      authorization := Some("Bearer " + authStore[i].accessToken);
      return Ok(authStore[i]);
    }

    /** sendWebhook: the POST is made and logged; a failed delivery is swallowed,
        so its outcome is not an input. */
    method SendWebhook(body: Value)
      modifies this
      ensures effects == old(effects) + [WebhookPost(body)]
      ensures authStore == old(authStore) && authFile == old(authFile) && redis == old(redis)
      ensures authorization == old(authorization)
    {
      effects := effects + [WebhookPost(body)];
    }

    /** isDuplicate: the application key `k1` is read first, the applicant
        key `k2` only when the first read is falsy; a rejected GET is thrown. */
    method IsMarked(k1: string, k2: string, calls: RedisReplies) returns (r: Result<bool, Exception>)
      ensures r == DedupCheck(redis, k1, k2, calls)
    {
      if calls.getApply.Some? {
        return Err(RedisError(calls.getApply.value));
      }
      var applicationExists := Truthy(Get(redis, k1));
      if applicationExists {
        return Ok(true);
      }
      if calls.getApplicant.Some? {
        return Err(RedisError(calls.getApplicant.value));
      }
      r := Ok(Truthy(Get(redis, k2)));
    }

    /** markApplicationProcessed: the two SETs, the application key first,
        both to 1 with no expiry; a rejected SET is thrown. */
    method SetBoth(first: string, second: string, calls: RedisReplies) returns (r: Result<(), Exception>)
      modifies this
      ensures var m := MarkKeys(old(redis), first, second, calls);
              redis == m.redis && effects == old(effects) + m.sets &&
              (if m.failure.Some? then r == Err(m.failure.value) else r == Ok(()))
      ensures authStore == old(authStore) && authFile == old(authFile) && authorization == old(authorization)
    {
      if calls.setApply.Some? {
        assert effects + [] == effects;
        return Err(RedisError(calls.setApply.value));
      }
      redis := Set(redis, first, "1", None);
      effects := effects + [RedisSet(first)];
      if calls.setApplicant.Some? {
        return Err(RedisError(calls.setApplicant.value));
      }
      redis := Set(redis, second, "1", None);
      effects := effects + [RedisSet(second)];
      r := Ok(());
    }

    method ProcessApplyWebhook(clientId: string, applyId: string, now: int, replies: AvitoReplies)
      returns (r: Result<string, Exception>)
      requires Valid() && WellFormed(replies)
      modifies this
      ensures Valid()
      ensures var o := ApplyWebhook(old(authStore), old(redis), clientId, applyId, now, replies);
              r == o.result && authStore == o.table && redis == o.redis &&
              effects == old(effects) + o.effects &&
              authorization == (if o.header.Some? then o.header else old(authorization))
    {
      ghost var table, store := authStore, redis;
      var tokens := GetAccountTokens(clientId, now, replies.token);
      if tokens.Err? {
        assert ApplyWebhook(table, store, clientId, applyId, now, replies) ==
               Failed(table, store, None, clientId, applyId, tokens.error);
        r := Fail(clientId, applyId, tokens.error);
        return;
      }
      assert ApplyWebhook(table, store, clientId, applyId, now, replies) ==
             Enrich(authStore, store, authorization, clientId, applyId, replies);
      EnrichKeepsTableAndHeader(authStore, store, authorization, clientId, applyId, replies);
      r := EnrichAndForward(clientId, applyId, replies);
    }

    /** The catch branch of processApplyWebhook. */
    method Fail(clientId: string, applyId: string, failure: Exception) returns (r: Result<string, Exception>)
      modifies this
      ensures r == Err(failure)
      ensures effects == old(effects) + [WebhookPost(ErrorResponse(clientId, applyId, failure))]
      ensures authStore == old(authStore) && authFile == old(authFile) && redis == old(redis)
      ensures authorization == old(authorization)
    {
      SendWebhook(ErrorResponse(clientId, applyId, failure));
      return Err(failure);
    }

    /** processApplyWebhook once the token is in place: the application, the
        vacancy and the resume are fetched and merged, then delivered. */
    method EnrichAndForward(clientId: string, applyId: string, replies: AvitoReplies)
      returns (r: Result<string, Exception>)
      requires WellFormed(replies)
      modifies this
      ensures var o := Enrich(old(authStore), old(redis), old(authorization), clientId, applyId, replies);
              r == o.result && redis == o.redis && effects == old(effects) + o.effects
      ensures authStore == old(authStore) && authFile == old(authFile) && authorization == old(authorization)
    {
      if replies.application.Err? {
        r := Fail(clientId, applyId, Http(replies.application.error));
        return;
      }
      if replies.application.value.None? {
        r := Fail(clientId, applyId, NotFound("Application not found"));
        return;
      }
      var application := replies.application.value.value;
      if replies.vacancy.Err? {
        r := Fail(clientId, applyId, Http(replies.vacancy.error));
        return;
      }
      var vacancy := replies.vacancy.value;
      var resume: Value := Obj(map[]);
      var resumeId := Prop(application.applicant, "resume_id");
      if Truthy(resumeId) {
        var fetched := GetResume(replies.resume, replies.contacts);
        resume := if fetched.Null? then Obj(map[]) else fetched;
      }
      if application.applicant.Undefined? || application.applicant.Null? {
        r := Fail(clientId, applyId, ReadDataError(application.applicant));
        return;
      }
      var merged := MergeApplicant(application.applicant, resume, application.phones);
      var response := ApplyResponse(clientId, applyId, vacancy, merged);
      r := DeliverOnce(clientId, applyId, application.vacancyId, Prop(application.applicant, "id"), response,
                       replies.redisCalls);
    }

    /** The two keys of the application, as isDuplicate and
        markApplicationProcessed build them, then the delivery under them. */
    method DeliverOnce(clientId: string, applyId: string, vacancyId: int, applicantId: Value, response: Value,
                       calls: RedisReplies) returns (r: Result<string, Exception>)
      requires !applicantId.Arr?
      modifies this
      ensures var o := Deliver(old(authStore), old(redis), old(authorization), clientId, applyId, ApplyKey(applyId),
                               ApplicantKey(Num(vacancyId), applicantId), response, calls);
              r == o.result && redis == o.redis && effects == old(effects) + o.effects
      ensures authStore == old(authStore) && authFile == old(authFile) && authorization == old(authorization)
    {
      r := DeliverWithKeys(clientId, applyId, ApplyKey(applyId), ApplicantKey(Num(vacancyId), applicantId), response,
                           calls);
    }

    /** The duplicate short-circuit, then sendWebhook and
        markApplicationProcessed, inside the try whose catch is Fail. */
    method DeliverWithKeys(clientId: string, applyId: string, k1: string, k2: string, response: Value,
                           calls: RedisReplies) returns (r: Result<string, Exception>)
      modifies this
      ensures var o := Deliver(old(authStore), old(redis), old(authorization), clientId, applyId, k1, k2, response, calls);
              r == o.result && redis == o.redis && effects == old(effects) + o.effects
      ensures authStore == old(authStore) && authFile == old(authFile) && authorization == old(authorization)
    {
      var duplicate := IsMarked(k1, k2, calls);
      if duplicate.Err? {
        r := Fail(clientId, applyId, duplicate.error);
        return;
      }
      if duplicate.value {
        assert effects + [] == effects;
        return Ok("duplicate");
      }
      SendWebhook(response);
      var marked := SetBoth(k1, k2, calls);
      ghost var m := MarkKeys(old(redis), k1, k2, calls);
      if marked.Err? {
        r := Fail(clientId, applyId, marked.error);
        assert effects == old(effects) + ([WebhookPost(response)] + m.sets + [WebhookPost(ErrorResponse(clientId, applyId, marked.error))]);
        return;
      }
      assert effects == old(effects) + ([WebhookPost(response)] + m.sets);
      return Ok("ok");
    }
  }
}
