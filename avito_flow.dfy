/** What processApplyWebhook promises, stated over `ApplyWebhook`, the function
    the service method is proved against. */
module AvitoFlow {
  import opened JsValue
  import opened RedisStore
  import opened AvitoDedup
  import opened AvitoAccounts
  import opened AvitoRelay

  /** The application a webhook got as far as, when it got one. */
  predicate Fetched(replies: AvitoReplies) {
    replies.application.Ok? && replies.application.value.Some?
  }

  function FetchedApplication(replies: AvitoReplies): Application
    requires Fetched(replies)
  {
    replies.application.value.value
  }

  /** The ways a delivery ends: a rejected GET, a duplicate, a delivery whose
      SETs all succeed, and a SET rejected after the POST, which leaves the
      record posted and, when it is the second SET, the application key set. */
  lemma DeliverCases(table: seq<Account>, redis: Store, header: Option<string>, clientId: string, applyId: string,
                     k1: string, k2: string, response: Value, calls: RedisReplies)
    ensures var o := Deliver(table, redis, header, clientId, applyId, k1, k2, response, calls);
            var d := DedupCheck(redis, k1, k2, calls);
            (d.Err? ==>
               o.result == Err(d.error) && o.effects == [WebhookPost(ErrorResponse(clientId, applyId, d.error))] &&
               o.redis == redis) &&
            (d == Ok(true) ==> o.result == Ok("duplicate") && o.effects == [] && o.redis == redis) &&
            (d == Ok(false) && calls.setApply.None? && calls.setApplicant.None? ==>
               o.result == Ok("ok") && o.effects == [WebhookPost(response), RedisSet(k1), RedisSet(k2)] &&
               o.redis == MarkBoth(redis, k1, k2)) &&
            (d == Ok(false) && calls.setApply.Some? ==>
               var e := RedisError(calls.setApply.value);
               o.result == Err(e) && o.effects == [WebhookPost(response), WebhookPost(ErrorResponse(clientId, applyId, e))] &&
               o.redis == redis) &&
            (d == Ok(false) && calls.setApply.None? && calls.setApplicant.Some? ==>
               var e := RedisError(calls.setApplicant.value);
               o.result == Err(e) &&
               o.effects == [WebhookPost(response), RedisSet(k1), WebhookPost(ErrorResponse(clientId, applyId, e))] &&
               o.redis == Set(redis, k1, "1", None))
  {
    var m := MarkKeys(redis, k1, k2, calls);
    if m.failure.Some? {
      var last := WebhookPost(ErrorResponse(clientId, applyId, m.failure.value));
      assert [WebhookPost(response)] + [] + [last] == [WebhookPost(response), last];
      assert [WebhookPost(response)] + [RedisSet(k1)] + [last] == [WebhookPost(response), RedisSet(k1), last];
    }
  }

  /** A failed delivery posts the error record last and a POST first; when no
      SET was rejected, the error record is all it posts and Redis is
      unchanged. */
  lemma DeliverFailure(table: seq<Account>, redis: Store, header: Option<string>, clientId: string, applyId: string,
                       k1: string, k2: string, response: Value, calls: RedisReplies)
    requires Deliver(table, redis, header, clientId, applyId, k1, k2, response, calls).result.Err?
    ensures var o := Deliver(table, redis, header, clientId, applyId, k1, k2, response, calls);
            o.effects != [] && o.effects[0].WebhookPost? &&
            o.effects[|o.effects| - 1] == WebhookPost(ErrorResponse(clientId, applyId, o.result.error))
    ensures calls.setApply.None? && calls.setApplicant.None? ==>
              var o := Deliver(table, redis, header, clientId, applyId, k1, k2, response, calls);
              o.effects == [WebhookPost(ErrorResponse(clientId, applyId, o.result.error))] && o.redis == redis
  {
    DeliverCases(table, redis, header, clientId, applyId, k1, k2, response, calls);
  }

  /** A delivery reported as a duplicate found a mark and did nothing. */
  lemma DeliverDuplicate(table: seq<Account>, redis: Store, header: Option<string>, clientId: string, applyId: string,
                         k1: string, k2: string, response: Value, calls: RedisReplies)
    requires Deliver(table, redis, header, clientId, applyId, k1, k2, response, calls).result == Ok("duplicate")
    ensures var o := Deliver(table, redis, header, clientId, applyId, k1, k2, response, calls);
            EitherMarked(redis, k1, k2) && o.effects == [] && o.redis == redis
  {
    DeliverCases(table, redis, header, clientId, applyId, k1, k2, response, calls);
  }

  /** A delivery that ends "ok" found no mark, had every Redis call answer,
      posted once and set both keys. */
  lemma DeliverOk(table: seq<Account>, redis: Store, header: Option<string>, clientId: string, applyId: string,
                  k1: string, k2: string, response: Value, calls: RedisReplies)
    requires Deliver(table, redis, header, clientId, applyId, k1, k2, response, calls).result == Ok("ok")
    ensures var o := Deliver(table, redis, header, clientId, applyId, k1, k2, response, calls);
            !EitherMarked(redis, k1, k2) &&
            calls.getApply.None? && calls.getApplicant.None? && calls.setApply.None? && calls.setApplicant.None? &&
            o.effects == [WebhookPost(response), RedisSet(k1), RedisSet(k2)] && o.redis == MarkBoth(redis, k1, k2)
  {
    DeliverCases(table, redis, header, clientId, applyId, k1, k2, response, calls);
  }

  /** A failed token step goes straight to the catch branch. */
  lemma TokenFailureCase(table: seq<Account>, redis: Store, clientId: string, applyId: string, now: int,
                         replies: AvitoReplies)
    requires WellFormed(replies) && AccountTokens(table, clientId, now, replies.token).Err?
    ensures ApplyWebhook(table, redis, clientId, applyId, now, replies) ==
              Failed(table, redis, None, clientId, applyId, AccountTokens(table, clientId, now, replies.token).error)
  {
  }

  /** A failure after the token step goes to the catch branch with the new
      table and header. */
  lemma EnrichFailureCase(table: seq<Account>, redis: Store, clientId: string, applyId: string, now: int,
                          replies: AvitoReplies)
    requires WellFormed(replies) && AccountTokens(table, clientId, now, replies.token).Ok?
    requires EnrichFailure(replies).Some?
    ensures var tokens := AccountTokens(table, clientId, now, replies.token);
            ApplyWebhook(table, redis, clientId, applyId, now, replies) ==
              Failed(tokens.value.0, redis, Some("Bearer " + tokens.value.1.accessToken), clientId, applyId,
                     EnrichFailure(replies).value)
  {
  }

  /** With the token, the application and the vacancy in place, the webhook
      is a delivery of the forwarded record under the application's keys. */
  lemma DeliveryCase(table: seq<Account>, redis: Store, clientId: string, applyId: string, now: int,
                     replies: AvitoReplies)
    requires WellFormed(replies) && AccountTokens(table, clientId, now, replies.token).Ok?
    requires EnrichFailure(replies).None?
    ensures var tokens := AccountTokens(table, clientId, now, replies.token);
            var app := FetchedApplication(replies);
            ApplyWebhook(table, redis, clientId, applyId, now, replies) ==
              Deliver(tokens.value.0, redis, Some("Bearer " + tokens.value.1.accessToken), clientId, applyId,
                      ApplyKey(applyId), ApplicantKey(Num(app.vacancyId), Prop(app.applicant, "id")),
                      Forwarded(clientId, applyId, replies), replies.redisCalls)
  {
  }

  /** A duplicate is neither forwarded nor marked again. */
  lemma DuplicateSkipsSendAndMark(table: seq<Account>, redis: Store, clientId: string, applyId: string, now: int,
                                  replies: AvitoReplies)
    requires WellFormed(replies)
    requires ApplyWebhook(table, redis, clientId, applyId, now, replies).result == Ok("duplicate")
    ensures ApplyWebhook(table, redis, clientId, applyId, now, replies).effects == []
    ensures ApplyWebhook(table, redis, clientId, applyId, now, replies).redis == redis
    ensures Fetched(replies) &&
            IsDuplicate(redis, applyId, Num(FetchedApplication(replies).vacancyId),
                        Prop(FetchedApplication(replies).applicant, "id"))
  {
    var tokens := AccountTokens(table, clientId, now, replies.token);
    if tokens.Err? {
      TokenFailureCase(table, redis, clientId, applyId, now, replies);
    } else if EnrichFailure(replies).Some? {
      EnrichFailureCase(table, redis, clientId, applyId, now, replies);
    } else {
      DeliveryCase(table, redis, clientId, applyId, now, replies);
      var app := FetchedApplication(replies);
      var k1, k2 := ApplyKey(applyId), ApplicantKey(Num(app.vacancyId), Prop(app.applicant, "id"));
      DeliverDuplicate(tokens.value.0, redis, Some("Bearer " + tokens.value.1.accessToken), clientId, applyId, k1, k2,
                   Forwarded(clientId, applyId, replies), replies.redisCalls);
      assert IsDuplicate(redis, applyId, Num(app.vacancyId), Prop(app.applicant, "id")) == EitherMarked(redis, k1, k2);
    }
  }

  /** A new application is forwarded once and then marked under both keys, and
      every Redis call of the delivery answered; the marks are set whether or
      not the POST was delivered, since its outcome is not an input. */
  lemma NewApplicationIsSentThenMarked(table: seq<Account>, redis: Store, clientId: string, applyId: string, now: int,
                                       replies: AvitoReplies)
    requires WellFormed(replies)
    requires ApplyWebhook(table, redis, clientId, applyId, now, replies).result == Ok("ok")
    ensures AccountTokens(table, clientId, now, replies.token).Ok? && Fetched(replies) && EnrichFailure(replies).None?
    ensures var calls := replies.redisCalls;
            calls.getApply.None? && calls.getApplicant.None? && calls.setApply.None? && calls.setApplicant.None?
    ensures var app := FetchedApplication(replies);
            var applicantId := Prop(app.applicant, "id");
            var o := ApplyWebhook(table, redis, clientId, applyId, now, replies);
            !IsDuplicate(redis, applyId, Num(app.vacancyId), applicantId) &&
            o.effects == [WebhookPost(Forwarded(clientId, applyId, replies)), RedisSet(ApplyKey(applyId)),
                          RedisSet(ApplicantKey(Num(app.vacancyId), applicantId))] &&
            o.redis == MarkedStore(redis, applyId, Num(app.vacancyId), applicantId)
  {
    var tokens := AccountTokens(table, clientId, now, replies.token);
    if tokens.Err? {
      TokenFailureCase(table, redis, clientId, applyId, now, replies);
    } else if EnrichFailure(replies).Some? {
      EnrichFailureCase(table, redis, clientId, applyId, now, replies);
    } else {
      DeliveryCase(table, redis, clientId, applyId, now, replies);
      var app := FetchedApplication(replies);
      var k1, k2 := ApplyKey(applyId), ApplicantKey(Num(app.vacancyId), Prop(app.applicant, "id"));
      DeliverOk(tokens.value.0, redis, Some("Bearer " + tokens.value.1.accessToken), clientId, applyId, k1, k2,
                   Forwarded(clientId, applyId, replies), replies.redisCalls);
      assert IsDuplicate(redis, applyId, Num(app.vacancyId), Prop(app.applicant, "id")) == EitherMarked(redis, k1, k2);
      assert MarkedStore(redis, applyId, Num(app.vacancyId), Prop(app.applicant, "id")) == MarkBoth(redis, k1, k2);
    }
  }

  /** Any failure is rethrown. The error record is the last thing posted and
      a POST comes first; when no SET was rejected, the error record is all
      that is posted and Redis is unchanged (RejectedSetAfterPost gives the
      outcome of a rejected SET). */
  lemma FailureSendsErrorAndRethrows(table: seq<Account>, redis: Store, clientId: string, applyId: string, now: int,
                                     replies: AvitoReplies)
    requires WellFormed(replies)
    requires ApplyWebhook(table, redis, clientId, applyId, now, replies).result.Err?
    ensures var o := ApplyWebhook(table, redis, clientId, applyId, now, replies);
            o.effects != [] && o.effects[0].WebhookPost? &&
            o.effects[|o.effects| - 1] == WebhookPost(ErrorResponse(clientId, applyId, o.result.error))
    ensures replies.redisCalls.setApply.None? && replies.redisCalls.setApplicant.None? ==>
              var o := ApplyWebhook(table, redis, clientId, applyId, now, replies);
              o.effects == [WebhookPost(ErrorResponse(clientId, applyId, o.result.error))] && o.redis == redis
  {
    var tokens := AccountTokens(table, clientId, now, replies.token);
    if tokens.Err? {
      TokenFailureCase(table, redis, clientId, applyId, now, replies);
    } else if EnrichFailure(replies).Some? {
      EnrichFailureCase(table, redis, clientId, applyId, now, replies);
    } else {
      DeliveryCase(table, redis, clientId, applyId, now, replies);
      var app := FetchedApplication(replies);
      DeliverFailure(tokens.value.0, redis, Some("Bearer " + tokens.value.1.accessToken), clientId, applyId,
                     ApplyKey(applyId), ApplicantKey(Num(app.vacancyId), Prop(app.applicant, "id")),
                     Forwarded(clientId, applyId, replies), replies.redisCalls);
    }
  }

  /** A SET rejected after the POST: the record stays posted, the error record
      follows it, the error is rethrown, and a rejected second SET leaves the
      application key set. */
  lemma RejectedSetAfterPost(table: seq<Account>, redis: Store, clientId: string, applyId: string, now: int,
                             replies: AvitoReplies)
    requires WellFormed(replies) && AccountTokens(table, clientId, now, replies.token).Ok?
    requires EnrichFailure(replies).None?
    requires replies.redisCalls.getApply.None? && replies.redisCalls.getApplicant.None?
    requires !IsDuplicate(redis, applyId, Num(FetchedApplication(replies).vacancyId),
                          Prop(FetchedApplication(replies).applicant, "id"))
    requires replies.redisCalls.setApply.Some? || replies.redisCalls.setApplicant.Some?
    ensures var o := ApplyWebhook(table, redis, clientId, applyId, now, replies);
            var posted := WebhookPost(Forwarded(clientId, applyId, replies));
            o.result.Err? && o.result.error.RedisError? &&
            (replies.redisCalls.setApply.Some? ==>
               o.result.error.message == replies.redisCalls.setApply.value &&
               o.effects == [posted, WebhookPost(ErrorResponse(clientId, applyId, o.result.error))] && o.redis == redis) &&
            (replies.redisCalls.setApply.None? ==>
               o.result.error.message == replies.redisCalls.setApplicant.value &&
               o.effects == [posted, RedisSet(ApplyKey(applyId)), WebhookPost(ErrorResponse(clientId, applyId, o.result.error))] &&
               o.redis == Set(redis, ApplyKey(applyId), "1", None))
  {
    DeliveryCase(table, redis, clientId, applyId, now, replies);
    var tokens := AccountTokens(table, clientId, now, replies.token);
    var app := FetchedApplication(replies);
    var k1, k2 := ApplyKey(applyId), ApplicantKey(Num(app.vacancyId), Prop(app.applicant, "id"));
    DeliverCases(tokens.value.0, redis, Some("Bearer " + tokens.value.1.accessToken), clientId, applyId, k1, k2,
                 Forwarded(clientId, applyId, replies), replies.redisCalls);
    assert IsDuplicate(redis, applyId, Num(app.vacancyId), Prop(app.applicant, "id")) == EitherMarked(redis, k1, k2);
  }

  /** The only results are "ok", "duplicate" and a rethrown error. */
  lemma WebhookResults(table: seq<Account>, redis: Store, clientId: string, applyId: string, now: int,
                       replies: AvitoReplies)
    requires WellFormed(replies)
    ensures var o := ApplyWebhook(table, redis, clientId, applyId, now, replies);
            o.result == Ok("ok") || o.result == Ok("duplicate") || o.result.Err?
  {
    var tokens := AccountTokens(table, clientId, now, replies.token);
    if tokens.Err? {
      TokenFailureCase(table, redis, clientId, applyId, now, replies);
    } else if EnrichFailure(replies).Some? {
      EnrichFailureCase(table, redis, clientId, applyId, now, replies);
    } else {
      DeliveryCase(table, redis, clientId, applyId, now, replies);
    }
  }

  /** No mark is ever set before a POST. */
  lemma MarkNeverPrecedesSend(table: seq<Account>, redis: Store, clientId: string, applyId: string, now: int,
                              replies: AvitoReplies)
    requires WellFormed(replies)
    ensures var o := ApplyWebhook(table, redis, clientId, applyId, now, replies);
            forall i :: 0 <= i < |o.effects| && o.effects[i].RedisSet? ==>
              exists j :: 0 <= j < i && o.effects[j].WebhookPost?
  {
    var o := ApplyWebhook(table, redis, clientId, applyId, now, replies);
    WebhookResults(table, redis, clientId, applyId, now, replies);
    if o.result == Ok("ok") {
      NewApplicationIsSentThenMarked(table, redis, clientId, applyId, now, replies);
    } else if o.result.Err? {
      FailureSendsErrorAndRethrows(table, redis, clientId, applyId, now, replies);
    } else {
      DuplicateSkipsSendAndMark(table, redis, clientId, applyId, now, replies);
    }
    PostLeadsEffects(o.effects);
  }

  /** In an effect list that is empty or starts with a POST, every mark has a
      POST before it. */
  lemma PostLeadsEffects(effects: seq<Effect>)
    requires effects == [] || effects[0].WebhookPost?
    ensures forall i :: 0 <= i < |effects| && effects[i].RedisSet? ==>
              exists j :: 0 <= j < i && effects[j].WebhookPost?
  {
    forall i | 0 <= i < |effects| && effects[i].RedisSet?
      ensures exists j :: 0 <= j < i && effects[j].WebhookPost?
    {
      assert effects[0].WebhookPost?;
    }
  }

  /** An unknown client is NotFound before any API call. */
  lemma UnknownClientIsNotFound(table: seq<Account>, redis: Store, clientId: string, applyId: string, now: int,
                                replies: AvitoReplies)
    requires WellFormed(replies) && !Known(table, clientId)
    ensures ApplyWebhook(table, redis, clientId, applyId, now, replies).result == Err(NotFound(NotFoundMessage))
    ensures ApplyWebhook(table, redis, clientId, applyId, now, replies).table == table
  {
    TokenFailureCase(table, redis, clientId, applyId, now, replies);
  }

  /** A `get_by_ids` reply without applications is NotFound. */
  lemma MissingApplicationIsNotFound(table: seq<Account>, redis: Store, clientId: string, applyId: string, now: int,
                                     replies: AvitoReplies)
    requires WellFormed(replies) && AccountTokens(table, clientId, now, replies.token).Ok?
    requires replies.application == Ok(None)
    ensures ApplyWebhook(table, redis, clientId, applyId, now, replies).result == Err(NotFound("Application not found"))
  {
    EnrichFailureCase(table, redis, clientId, applyId, now, replies);
  }

  /** Neither the resume nor its contacts decide whether the application is
      processed: once the token, the application and the vacancy are there and
      the applicant is an object, the result is "ok" or "duplicate", or a
      rejected Redis call, whatever the resume calls returned. */
  lemma ResumeFailureIsSwallowed(table: seq<Account>, redis: Store, clientId: string, applyId: string, now: int,
                                 replies: AvitoReplies)
    requires WellFormed(replies) && AccountTokens(table, clientId, now, replies.token).Ok?
    requires Fetched(replies) && replies.vacancy.Ok?
    requires !FetchedApplication(replies).applicant.Undefined? && !FetchedApplication(replies).applicant.Null?
    ensures var o := ApplyWebhook(table, redis, clientId, applyId, now, replies);
            o.result.Ok? || o.result.error.RedisError?
  {
    var tokens := AccountTokens(table, clientId, now, replies.token);
    if tokens.Err? {
      TokenFailureCase(table, redis, clientId, applyId, now, replies);
    } else if EnrichFailure(replies).Some? {
      EnrichFailureCase(table, redis, clientId, applyId, now, replies);
    } else {
      DeliveryCase(table, redis, clientId, applyId, now, replies);
      var app := FetchedApplication(replies);
      DeliverCases(tokens.value.0, redis, Some("Bearer " + tokens.value.1.accessToken), clientId, applyId,
                   ApplyKey(applyId), ApplicantKey(Num(app.vacancyId), Prop(app.applicant, "id")),
                   Forwarded(clientId, applyId, replies), replies.redisCalls);
    }
  }

  /** A webhook delivered again after it was forwarded is reported as a
      duplicate and forwarded no second time, whenever a token can be had. */
  lemma RedeliveryIsDuplicate(table: seq<Account>, redis: Store, clientId: string, applyId: string, now: int,
                              later: int, replies: AvitoReplies)
    requires WellFormed(replies) && replies.token.Ok?
    requires ApplyWebhook(table, redis, clientId, applyId, now, replies).result == Ok("ok")
    ensures var o := ApplyWebhook(table, redis, clientId, applyId, now, replies);
            ApplyWebhook(o.table, o.redis, clientId, applyId, later, replies).result == Ok("duplicate") &&
            ApplyWebhook(o.table, o.redis, clientId, applyId, later, replies).effects == []
  {
    var o := ApplyWebhook(table, redis, clientId, applyId, now, replies);
    NewApplicationIsSentThenMarked(table, redis, clientId, applyId, now, replies);
    var tokens := AccountTokens(table, clientId, now, replies.token);
    DeliveryCase(table, redis, clientId, applyId, now, replies);
    assert o.table == tokens.value.0;
    TokensKeepCredentials(table, clientId, now, replies.token);
    var i := FindAccount(table, clientId).value;
    assert Credentials(o.table)[i] == Credentials(table)[i];
    assert Known(o.table, clientId);
    var app := FetchedApplication(replies);
    var applicantId := Prop(app.applicant, "id");
    MarkedIsDuplicate(redis, applyId, Num(app.vacancyId), applicantId);
    SecondRunIsDuplicate(o.table, o.redis, clientId, applyId, later, replies);
  }

  /** A webhook whose application is already marked, with a token to be had
      and the GETs answering, ends as a duplicate. */
  lemma SecondRunIsDuplicate(table: seq<Account>, redis: Store, clientId: string, applyId: string, now: int,
                             replies: AvitoReplies)
    requires WellFormed(replies) && replies.token.Ok? && Known(table, clientId)
    requires EnrichFailure(replies).None?
    requires replies.redisCalls.getApply.None? && replies.redisCalls.getApplicant.None?
    requires IsDuplicate(redis, applyId, Num(FetchedApplication(replies).vacancyId),
                         Prop(FetchedApplication(replies).applicant, "id"))
    ensures ApplyWebhook(table, redis, clientId, applyId, now, replies).result == Ok("duplicate")
    ensures ApplyWebhook(table, redis, clientId, applyId, now, replies).effects == []
  {
    var tokens := AccountTokens(table, clientId, now, replies.token);
    assert tokens.Ok?;
    DeliveryCase(table, redis, clientId, applyId, now, replies);
    var app := FetchedApplication(replies);
    var k1, k2 := ApplyKey(applyId), ApplicantKey(Num(app.vacancyId), Prop(app.applicant, "id"));
    assert EitherMarked(redis, k1, k2);
    DeliverCases(tokens.value.0, redis, Some("Bearer " + tokens.value.1.accessToken), clientId, applyId, k1, k2,
                 Forwarded(clientId, applyId, replies), replies.redisCalls);
  }
}
