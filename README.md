# Avito and hh.ru application relays, modelled in Dafny

The repository holds two NestJS services. Each receives a "new application"
webhook from a job platform, fetches more data from that platform's API and
forwards the enriched record to a downstream webhook. Duplicates are filtered
out through Redis.

- **Avito relay.** `AvitoService` keeps a table of client accounts. The table
  is held in memory and persisted to a JSON file. Each account has an access
  token that is renewed when it is missing or stale. For one webhook the
  service looks up the application, its vacancy and its resume. It merges the
  applicant record in layers. It skips a duplicate, and otherwise posts the
  record and then marks it in Redis. When anything fails it posts an error
  record and rethrows. `AvitoSecretGuard` protects the webhook route: it looks
  the route's client up in the persisted table and compares the `x-secret`
  header with the stored secret.
- **hh.ru relay.** `HhApiService` is the API client. It reads and writes a
  token file, refreshes the token before a request when it has expired, and
  has a response interceptor that refreshes and replays a request once after
  a 403. `HhService.checkOrSubscribe` lists the webhook subscriptions and then
  creates a subscription or updates the first one. `processNegotiationWebhook`
  only enqueues a job. `QueueService` fixes the job's retry and retention
  options. `QueueProcessor` handles each job:
  1. it fetches the vacancy and the resume;
  2. it checks two Redis keys for duplicates;
  3. it waits out a one-second rate limit;
  4. it posts to the webhook chosen by the vacancy's manager;
  5. it marks both keys, with expiries, in one pipeline.

Redis is a map from keys to the stored value and its optional expiry.
Platform, webhook and Redis calls are input replies. The clock is a `now`
parameter. Outward actions are recorded in order in an effects log, or in the
client's log of sent requests. Where the source mutates an object, the model
is a class whose methods are proved to leave it in the state a pure function
describes: the Avito account table, the hh.ru token client and the queue
worker's Redis and rate-limit fields. The properties are proved about those
functions.

Files, in dependency order:
- `js_value.dfy`: JavaScript values, truthiness, property access, spread and `String()`.
- `redis_store.dfy`: the key-value store.
- `avito_contacts.dfy`, `avito_keys.dfy`, `avito_dedup.dfy`, `avito_accounts.dfy`, `avito_merge.dfy`: the Avito rules.
- `avito_service.dfy`: the Avito service class.
- `avito_flow.dfy`: the properties of processing one webhook.
- `avito_guard.dfy`: the secret guard.
- `hh_tokens.dfy`: the token state machine.
- `hh_api.dfy`: the API client class.
- `hh_contacts.dfy`: the contact parser.
- `hh_dedup.dfy`: the worker's keys, marks and rate limit.
- `hh_queue_processor.dfy`: the worker.
- `hh_queue_service.dfy`: the job policy.
- `hh_service.dfy`: the subscription reconciler and the enqueue.

## Model

| member | source | states |
|---|---|---|
| AvitoContacts.FormatPhoneNumber | avito-main/src/avito/avito.service.ts:340-342 | the result is all digits and no longer than the input; an all-digit input is returned unchanged |
| AvitoContacts.FormatKeepsDigits | avito-main/src/avito/avito.service.ts:340-342 | every digit occurs in the result exactly as often as in the input, so only non-digits are removed |
| AvitoContacts.FormatDistributes | avito-main/src/avito/avito.service.ts:340-342 | normalising a concatenation is concatenating the normalised parts (a global, per-character replace) |
| AvitoContacts.FormatIdempotent | avito-main/src/avito/avito.service.ts:340-342 | normalising twice is normalising once |
| AvitoContacts.FormatExample | avito-main/src/avito/avito.service.ts:340-342 | "+7 (912) 345-67-89" becomes "79123456789" |
| AvitoContacts.FindFirst | avito-main/src/avito/avito.service.ts:329-330 | the index found is the first contact of that type; None exactly when no contact has it |
| AvitoContacts.ExtractContactInfo | avito-main/src/avito/avito.service.ts:326-338 | the phone is the normalised value of the first `phone` contact, and undefined when there is none or its value is empty; the e-mail is the raw value of the first `e-mail` contact, or undefined |
| AvitoContacts.ExtractedPhoneIsDigits | avito-main/src/avito/avito.service.ts:333-335 | an extracted phone is all digits |
| AvitoKeys.Escape | avito-main/src/avito/avito.service.ts:356 | the query-string escape of a text never contains ',' or '=', so the separators of the key stay unambiguous |
| AvitoKeys.QsValue | avito-main/src/avito/avito.service.ts:356 | a field value as the query string writes it (a string escaped, a number or boolean as its text), never containing ',' or '=' |
| AvitoKeys.UnescapeEscape | avito-main/src/avito/avito.service.ts:356 | the query-string escape of a value (UTF-8 percent encoding of all but the unreserved characters) decodes back to the value |
| AvitoKeys.EscapeInjective | avito-main/src/avito/avito.service.ts:356 | distinct values escape differently |
| AvitoKeys.EscapeUnreserved | avito-main/src/avito/avito.service.ts:356 | a value of unreserved characters is written as is |
| AvitoKeys.SortEntries | avito-main/src/avito/avito.service.ts:354 | the sorted entries are a permutation of the input |
| AvitoKeys.SortEntriesSorted | avito-main/src/avito/avito.service.ts:354 | the entries come out in the order of the default array sort, which compares the `key,value` strings (by Unicode scalar value) |
| AvitoKeys.MakeRedisKey | avito-main/src/avito/avito.service.ts:347-357 | every key starts with `avito#` |
| AvitoKeys.ParseMakeRedisKey | avito-main/src/avito/avito.service.ts:347-357 | the key can be parsed back into the sorted list of (name, value text) pairs: `avito#`, then `name=escaped value` joined by `,` |
| AvitoKeys.MakeRedisKeyOrderIndependent | avito-main/src/avito/avito.service.ts:354-356 | two field lists with distinct names that are permutations of each other give the same key |
| AvitoKeys.MakeRedisKeyEqualIff | avito-main/src/avito/avito.service.ts:347-357 | two keys are equal iff the two field lists, each with distinct names, hold the same names with the same value texts |
| AvitoDedup.ApplyKey | avito-main/src/avito/avito.service.ts:273 | (definition) the application key `makeRedisKey({apply_id})`; its layout, round trip and injectivity are ApplyKeyLayout, ParseApplyKey and ApplyKeyInjective |
| AvitoDedup.ApplicantKey | avito-main/src/avito/avito.service.ts:274-277 | (definition) the applicant key `makeRedisKey({vacancy_id, applicant_id})`; its layout, round trip and injectivity are ApplicantKeyLayout, ParseApplicantKey and ApplicantKeyInjective |
| AvitoDedup.MakeRedisKeyExample | avito-main/src/avito/avito.service.ts:344-346 | `{apply_id: 123}` gives "avito#apply_id=123" |
| AvitoDedup.ApplyKeyLayout | avito-main/src/avito/avito.service.ts:273 | the application key is `avito#apply_id=` followed by the escaped id |
| AvitoDedup.ApplicantKeyLayout | avito-main/src/avito/avito.service.ts:274-277 | the applicant key lists `applicant_id` before `vacancy_id` |
| AvitoDedup.ParseApplyKey | avito-main/src/avito/avito.service.ts:273 | the application key parses back to its single field |
| AvitoDedup.ParseApplicantKey | avito-main/src/avito/avito.service.ts:274-277 | the applicant key parses back to its two fields |
| AvitoDedup.KeysNeverCollide | avito-main/src/avito/avito.service.ts:273-277 | an application key is never an applicant key |
| AvitoDedup.ApplyKeyInjective | avito-main/src/avito/avito.service.ts:273 | two application keys are equal iff the ids are |
| AvitoDedup.ApplicantKeyInjective | avito-main/src/avito/avito.service.ts:274-277 | two applicant keys are equal iff both ids have the same text |
| AvitoDedup.ApplicantKeyTypedInjective | avito-main/src/avito/avito.service.ts:268-277 | for a numeric vacancy id and a string applicant id, the key is equal iff both ids are |
| AvitoDedup.EitherMarked | avito-main/src/avito/avito.service.ts:359-377 | true iff either key holds a truthy (non-empty) value |
| AvitoDedup.MarkBoth | avito-main/src/avito/avito.service.ts:278-279 | both keys are set to "1" without expiry; every other key is unchanged |
| AvitoDedup.MarkBothFrame | avito-main/src/avito/avito.service.ts:268-280 | after marking two keys, a pair of keys reads as marked iff it did before or it shares a key with the marked pair |
| AvitoDedup.IsDuplicate | avito-main/src/avito/avito.service.ts:359-377 | a duplicate iff the application key or the applicant key holds a truthy value |
| AvitoDedup.MarkedStore | avito-main/src/avito/avito.service.ts:268-280 | exactly the two keys of the application are set, to "1" with no expiry |
| AvitoDedup.MarkedIsDuplicate | avito-main/src/avito/avito.service.ts:359-377 | a marked application is a duplicate from then on |
| AvitoDedup.MarkAffectsOnlyItsApplication | avito-main/src/avito/avito.service.ts:359-377 | after a mark, another application is a duplicate iff it was one before, or it shares the apply id or the (vacancy, applicant) pair |
| AvitoAccounts.FindAccount | avito-main/src/avito/avito.service.ts:33-35 | the index of the first account with the id; None iff no account has it |
| AvitoAccounts.GetAccount | avito-main/src/avito/avito.service.ts:33-35 | the first account with the id, or None iff there is none |
| AvitoAccounts.AddAccount | avito-main/src/avito/avito.service.ts:37-44 | a known id fails with BadRequest "Account already exists"; otherwise exactly one account is appended, with the given credentials, an empty token and expiry 0, and the table before it is unchanged |
| AvitoAccounts.AddKeepsIdsUnique | avito-main/src/avito/avito.service.ts:37-44 | adding keeps the client ids unique |
| AvitoAccounts.AddThenGet | avito-main/src/avito/avito.service.ts:33-44 | the added account is found under its id, and every other id finds what it found before |
| AvitoAccounts.AddThenDelete | avito-main/src/avito/avito.service.ts:37-66 | deleting the account just added gives back the table from before |
| AvitoAccounts.DeleteAccount | avito-main/src/avito/avito.service.ts:54-66 | an unknown id fails with NotFound; otherwise the first account with the id is spliced out and the others keep their order |
| AvitoAccounts.DeleteKeepsIdsUnique | avito-main/src/avito/avito.service.ts:54-66 | deleting keeps the client ids unique |
| AvitoAccounts.DeleteRemovesExactlyThatAccount | avito-main/src/avito/avito.service.ts:54-66 | with unique ids, the id is gone, the table is one shorter and every other id finds the same account |
| AvitoAccounts.RequestTokens | avito-main/src/avito/avito.service.ts:68-78 | a failed token call is rethrown; otherwise the account keeps its credentials and stores the new token and `expires_in * 1000` |
| AvitoAccounts.AccountTokens | avito-main/src/avito/avito.service.ts:80-92 | an unknown id fails with NotFound; the token is renewed iff it is empty or its expiry is before `now`; a failed renewal is rethrown; a renewed account replaces the old one in place |
| AvitoAccounts.TokensKeepCredentials | avito-main/src/avito/avito.service.ts:76-86 | token handling changes no client id or secret, and returns the account stored in the table |
| AvitoAccounts.RenewedTokenIsStale | avito-main/src/avito/avito.service.ts:77-83 | a renewed token stores a duration, not a deadline, so it is stale again at any later time past `expires_in * 1000` |
| AvitoMerge.GetResume | avito-main/src/avito/avito.service.ts:290-314 | null unless both fetches succeed; otherwise the resume with `data` replaced by the name, the full name and the extracted contact info |
| AvitoMerge.ResumeLayer | avito-main/src/avito/avito.service.ts:150-169 | `{}` when the applicant has no resume id or the resume fetch gave null; otherwise the fetched resume |
| AvitoMerge.PhoneContacts | avito-main/src/avito/avito.service.ts:178-181 | each application phone becomes a `phone` contact, in order; no phone list gives none |
| AvitoMerge.ContactLayer | avito-main/src/avito/avito.service.ts:177-182 | the contact layer never has an e-mail, and its phone is the normalised first phone when that is non-empty |
| AvitoMerge.MergeApplicant | avito-main/src/avito/avito.service.ts:171-193 | top-level fields come from the resume over the applicant; `data` fields other than phone and e-mail come from `resume.data` over `applicant.data`; the merged `data` always has both phone and e-mail |
| AvitoMerge.MergedEmailIsUndefined | avito-main/src/avito/avito.service.ts:171-184 | the merged e-mail is always undefined, since the contact layer overrides it with undefined |
| AvitoMerge.MergedPhone | avito-main/src/avito/avito.service.ts:171-193 | the merged phone is the normalised first application phone when there is one, and undefined otherwise |
| AvitoRelay.AvitoService.constructor | avito-main/src/avito/avito.service.ts:22-31 | the table is the file's content, or empty when there is no file |
| AvitoRelay.AvitoService.AddAccount | avito-main/src/avito/avito.service.ts:37-52 | the table becomes what AddAccount gives, or stays unchanged on the error, and the file follows the table |
| AvitoRelay.AvitoService.DeleteAccount | avito-main/src/avito/avito.service.ts:54-66 | the table becomes what DeleteAccount gives, or stays unchanged on the error, and the file follows the table |
| AvitoRelay.AvitoService.RequestTokens | avito-main/src/avito/avito.service.ts:68-78 | the account at the index is updated in place as RequestTokens gives; the file is not written |
| AvitoRelay.AvitoService.GetAccountTokens | avito-main/src/avito/avito.service.ts:80-92 | the table and the returned account are what AccountTokens gives, the file is written and the header becomes "Bearer " + token; on an error nothing changes |
| AvitoRelay.AvitoService.SendWebhook | avito-main/src/avito/avito.service.ts:245-256 | one POST is recorded, and a failed POST is swallowed |
| AvitoRelay.AvitoService.IsMarked | avito-main/src/avito/avito.service.ts:359-377 | the answer is DedupCheck of the store: a rejected GET is thrown, a truthy application key answers true without the second GET, otherwise the applicant key decides; nothing changes |
| AvitoRelay.AvitoService.SetBoth | avito-main/src/avito/avito.service.ts:268-280 | store, effects and result are those of MarkKeys: the application key is SET first, a rejected SET is thrown and stops the marking, so a rejected second SET leaves the application key set |
| AvitoRelay.AvitoService.ProcessApplyWebhook | avito-main/src/avito/avito.service.ts:134-243 | result, table, Redis, effects and header are those of ApplyWebhook |
| AvitoRelay.AvitoService.Fail | avito-main/src/avito/avito.service.ts:226-242 | the error record is posted and the error rethrown |
| AvitoRelay.AvitoService.EnrichAndForward | avito-main/src/avito/avito.service.ts:144-225 | result, Redis and effects are those of Enrich |
| AvitoRelay.AvitoService.DeliverOnce | avito-main/src/avito/avito.service.ts:202-242 | result, Redis and effects are those of Deliver for the application key of `applyId`, the applicant key of the vacancy and applicant ids, and the Redis replies |
| AvitoRelay.AvitoService.DeliverWithKeys | avito-main/src/avito/avito.service.ts:202-242 | result, Redis and effects are those of Deliver: a rejected GET posts the error record and rethrows; a duplicate returns "duplicate" with nothing done; otherwise the record is posted, then the SETs; a rejected SET posts the error record and rethrows, and two accepted SETs give "ok" |
| AvitoRelay.ApplyResponse | avito-main/src/avito/avito.service.ts:195-200 | the forwarded record: an object with the merged `resume` and without an `error` field, so it is never taken for an error record |
| AvitoRelay.ErrorResponse | avito-main/src/avito/avito.service.ts:232-237 | the error record: an object with the `error` message and without a `resume` field |
| AvitoRelay.Failed | avito-main/src/avito/avito.service.ts:226-242 | the catch branch: the error is rethrown, and the table, the header and Redis are left as they were |
| AvitoRelay.EnrichFailure | avito-main/src/avito/avito.service.ts:144-175 | processing fails after the token step iff the application call fails or finds nothing, the vacancy call fails, or the applicant is null or undefined; a failed application call is thrown as it is |
| AvitoRelay.DedupCheck | avito-main/src/avito/avito.service.ts:359-377 | isDuplicate: an answer is EitherMarked of the two keys; it throws iff the first GET is rejected, or the first key is not truthy and the second GET is rejected, each time with that rejection |
| AvitoRelay.MarkKeys | avito-main/src/avito/avito.service.ts:268-280 | markApplicationProcessed: it succeeds iff neither SET is rejected, and then both keys are set in order; a rejected first SET changes nothing; a rejected second SET leaves the application key set |
| AvitoRelay.Deliver | avito-main/src/avito/avito.service.ts:202-242 | the table and header are unchanged; the result is "ok", "duplicate" or thrown, and a thrown result ends with the error record posted |
| AvitoRelay.ApplyWebhook | avito-main/src/avito/avito.service.ts:134-243 | (definition) processApplyWebhook from the state it starts in: the token step, then Enrich, failures going to Failed; its properties are the AvitoFlow lemmas |
| AvitoRelay.Enrich | avito-main/src/avito/avito.service.ts:144-242 | (definition) the steps after the token: EnrichFailure goes to Failed, otherwise Deliver of the forwarded record under the two keys; EnrichKeepsTableAndHeader states what it leaves alone |
| AvitoRelay.EnrichKeepsTableAndHeader | avito-main/src/avito/avito.service.ts:144-225 | after the token step, processing changes neither the account table nor the header |
| AvitoFlow.DeliverCases | avito-main/src/avito/avito.service.ts:202-242 | (proof helper) Deliver case by case: a rejected GET goes to the catch alone; a duplicate does nothing; two accepted SETs give the post, both SETs and "ok"; a rejected first SET gives the post and the error post with Redis unchanged; a rejected second SET gives the post, the application-key SET and the error post, with that key set |
| AvitoFlow.DuplicateSkipsSendAndMark | avito-main/src/avito/avito.service.ts:202-213 | "duplicate" means the application was marked, and nothing was posted or set |
| AvitoFlow.NewApplicationIsSentThenMarked | avito-main/src/avito/avito.service.ts:141-225 | "ok" means the token step and every fetch succeeded, no Redis call was rejected and the application was not marked; it was posted, then both keys were set, and Redis is the marked store |
| AvitoFlow.FailureSendsErrorAndRethrows | avito-main/src/avito/avito.service.ts:226-242 | a thrown result always ends with the error record posted, after the forwarded record when a SET was rejected; with no SET rejected the error record is the only effect and Redis is unchanged |
| AvitoFlow.RejectedSetAfterPost | avito-main/src/avito/avito.service.ts:217-242 | a SET rejected after the POST throws that Redis error: the record and then the error record are posted; a rejected first SET leaves Redis unchanged, a rejected second SET leaves the application key set |
| AvitoFlow.WebhookResults | avito-main/src/avito/avito.service.ts:134-243 | the result is "ok", "duplicate" or a thrown error |
| AvitoFlow.MarkNeverPrecedesSend | avito-main/src/avito/avito.service.ts:217-223 | every Redis SET is preceded by a webhook POST |
| AvitoFlow.UnknownClientIsNotFound | avito-main/src/avito/avito.service.ts:80-82 | an unknown client fails with NotFound and the table is unchanged |
| AvitoFlow.MissingApplicationIsNotFound | avito-main/src/avito/avito.service.ts:144-146 | a missing application fails with NotFound "Application not found" |
| AvitoFlow.ResumeFailureIsSwallowed | avito-main/src/avito/avito.service.ts:150-169 | with the application and vacancy fetched, resume and contact failures never make processing throw; only a rejected Redis call can |
| AvitoFlow.RedeliveryIsDuplicate | avito-main/src/avito/avito.service.ts:202-225 | redelivering a processed application returns "duplicate" with no effect |
| AvitoFlow.SecondRunIsDuplicate | avito-main/src/avito/avito.service.ts:202-213 | an application already marked is a duplicate, with no effect, when the GETs answer |
| AvitoGuard.CanActivate | avito-main/src/avito/avito.guard.ts:14-32 | an unknown client id throws NotFound; a known one passes iff the header equals the stored secret of the first account with that id, read from the persisted table |
| AvitoGuard.AbsentSecretNeverMatches | avito-main/src/avito/avito.guard.ts:19-31 | a request without `x-secret` never passes |
| AvitoGuard.GuardSeesOnlyCredentials | avito-main/src/avito/avito.guard.ts:17-31 | two tables with the same ids and secrets give the same verdict |
| AvitoGuard.GuardIgnoresTokens | avito-main/src/avito/avito.guard.ts:20-31 | refreshing an account's token never changes a guard verdict |
| HhTokens.Respond | hh-main/src/negotiations/hh-api.service.ts:142-149 | a call consumes one scripted reply of its kind, a token reply for `/token` and an API reply otherwise |
| HhTokens.ReadToken | hh-main/src/negotiations/hh-api.service.ts:45-65 | no file gives the store `{'', '', 0}` with no header; a file gives its record; the header is set only for a non-empty token |
| HhTokens.WriteTokens | hh-main/src/negotiations/hh-api.service.ts:67-80 | all three fields are replaced and the header becomes "Bearer " + the new token |
| HhTokens.WrittenTokensExpire | hh-main/src/negotiations/hh-api.service.ts:72 | written tokens are refreshed exactly when `now` is past the write time plus `expires_in * 1000` |
| HhTokens.Send | hh-main/src/negotiations/hh-api.service.ts:32-42 | the request goes out with its config's header, and earlier requests stay in the log |
| HhTokens.Refresh | hh-main/src/negotiations/hh-api.service.ts:103-132 | no refresh token throws "Authorization is required" with no call and no change; otherwise the refresh grant is sent first |
| HhTokens.GetTokens | hh-main/src/negotiations/hh-api.service.ts:82-101 | the code grant is sent; a successful reply is written through writeTokens |
| HhTokens.Request | hh-main/src/negotiations/hh-api.service.ts:134-150 | a refresh comes first iff `expiresIn < now`; without a refresh token that throws before anything is sent; otherwise the request is the first thing sent |
| HhTokens.Startup | hh-main/src/negotiations/hh-api.service.ts:22-29 | the startup check never throws, and a store that has not expired is used as read |
| HhTokens.ReplayIsNeverReplayed | hh-main/src/negotiations/hh-api.service.ts:35-40 | a replayed request (`_retry` set) passes any error through unchanged |
| HhTokens.ApiRequestReplayedAtMostOnce | hh-main/src/negotiations/hh-api.service.ts:32-42 | an API request goes out once, or twice only after a 403 while the interceptor is armed |
| HhTokens.ForbiddenRefreshesAndReplays | hh-main/src/negotiations/hh-api.service.ts:35-38 | a 403 sends the refresh grant, writes the new tokens and replays the same request, whose reply is the result |
| HhTokens.UnhandledErrorPassesThrough | hh-main/src/negotiations/hh-api.service.ts:35-40 | any status but 403, 401 included, is thrown unchanged with no refresh |
| HhTokens.RefreshFailureKeepsTokens | hh-main/src/negotiations/hh-api.service.ts:110-131 | a failed token call is rethrown and the store and header are unchanged |
| HhTokens.RefreshWritesTokens | hh-main/src/negotiations/hh-api.service.ts:110-127 | a successful refresh writes the reply's tokens |
| HhTokens.ForbiddenTokenCallRefreshesAgain | hh-main/src/negotiations/hh-api.service.ts:32-42 | the interceptor also covers `/token`: a 403 there sends the refresh grant again |
| HhTokens.SendTokenOnly | hh-main/src/negotiations/hh-api.service.ts:32-42 | a token call sends nothing but token calls, its replay included |
| HhTokens.RefreshTokenOnly | hh-main/src/negotiations/hh-api.service.ts:103-132 | a refresh sends nothing but token calls |
| HhTokens.SendKeepsHeaderInSync | hh-main/src/negotiations/hh-api.service.ts:32-42 | a request keeps the header equal to "Bearer " + the stored token |
| HhTokens.RefreshKeepsHeaderInSync | hh-main/src/negotiations/hh-api.service.ts:103-132 | a refresh keeps the header equal to "Bearer " + the stored token |
| HhTokens.RequestKeepsHeaderInSync | hh-main/src/negotiations/hh-api.service.ts:134-150 | request keeps the header equal to "Bearer " + the stored token |
| HhTokens.GetTokensKeepsHeaderInSync | hh-main/src/negotiations/hh-api.service.ts:82-101 | getTokens keeps the header equal to "Bearer " + the stored token |
| HhTokens.StartupHeaderInSync | hh-main/src/negotiations/hh-api.service.ts:59-62 | after startup the header equals "Bearer " + the stored token |
| HhTokens.RequestSentAtMostTwice | hh-main/src/negotiations/hh-api.service.ts:134-150 | one request puts at most two API calls on the wire, both the same request |
| HhTokens.RequestSendsItsCall | hh-main/src/negotiations/hh-api.service.ts:134-150 | the API call goes out iff no refresh is due or the refresh succeeds; it is then the first API request sent; a request that returned data was sent |
| HhTokens.StartupWithoutFile | hh-main/src/negotiations/hh-api.service.ts:22-62 | with no token file, startup ends with the default store, no header and nothing sent |
| HhTokens.StartupRefreshIsNotIntercepted | hh-main/src/negotiations/hh-api.service.ts:24-32 | the startup refresh runs before the interceptor is installed: on failure it sends the grant once and keeps the store |
| HhApi.HhApiService.constructor | hh-main/src/negotiations/hh-api.service.ts:14-43 | the client starts in the state Startup gives |
| HhApi.HhApiService.WriteTokens | hh-main/src/negotiations/hh-api.service.ts:67-80 | the fields become WriteTokens' state and the file follows |
| HhApi.HhApiService.Send | hh-main/src/negotiations/hh-api.service.ts:32-42 | the fields and the result are those of Send |
| HhApi.HhApiService.RefreshToken | hh-main/src/negotiations/hh-api.service.ts:103-132 | the fields and the result are those of Refresh |
| HhApi.HhApiService.GetTokens | hh-main/src/negotiations/hh-api.service.ts:82-101 | the fields and the result are those of GetTokens |
| HhApi.HhApiService.Request | hh-main/src/negotiations/hh-api.service.ts:134-150 | the fields and the result are those of Request |
| HhContacts.CellPhone | hh-main/src/negotiations/queue.processor.ts:94-99 | a `cell` contact never yields a falsy phone |
| HhContacts.EmailOf | hh-main/src/negotiations/queue.processor.ts:100-101 | an `email` contact never yields a falsy e-mail |
| HhContacts.ParseContacts | hh-main/src/negotiations/queue.processor.ts:88-107 | a non-array gives "N/A" twice; an array gives the phone and e-mail its last `cell` and last `email` contact decide |
| HhContacts.LastCellWins | hh-main/src/negotiations/queue.processor.ts:93-99 | the last `cell` contact decides the phone |
| HhContacts.NoCellNoPhone | hh-main/src/negotiations/queue.processor.ts:89-99 | without a `cell` contact the phone stays "N/A" |
| HhContacts.LastEmailWins | hh-main/src/negotiations/queue.processor.ts:100-102 | the last `email` contact decides the e-mail |
| HhContacts.NoEmailNoAddress | hh-main/src/negotiations/queue.processor.ts:90-102 | without an `email` contact the e-mail stays "N/A" |
| HhContacts.ObjectPhoneUsesFormatted | hh-main/src/negotiations/queue.processor.ts:96-97 | an object value gives its `formatted` field, or "N/A" |
| HhDedup.NegotiationKey | hh-main/src/negotiations/queue.processor.ts:117 | (definition) `negotiation:<id>`; KeysNeverCollide and NegotiationKeyInjective state its properties |
| HhDedup.ApplicationKey | hh-main/src/negotiations/queue.processor.ts:118 | (definition) `application:<user>:<vacancy>:<resume>`; ApplicationKeyInjective and ApplicationKeyCanCollide state when it tells applications apart |
| HhDedup.KeysNeverCollide | hh-main/src/negotiations/queue.processor.ts:117-118 | a negotiation key is never an application key |
| HhDedup.NegotiationKeyInjective | hh-main/src/negotiations/queue.processor.ts:117 | distinct negotiation ids have distinct keys |
| HhDedup.ApplicationKeyInjective | hh-main/src/negotiations/queue.processor.ts:118 | with colon-free user and vacancy ids, the application key tells applications apart |
| HhDedup.ApplicationKeyCanCollide | hh-main/src/negotiations/queue.processor.ts:118 | ids containing ':' can share an application key |
| HhDedup.KeyStatus | hh-main/src/negotiations/queue.processor.ts:120-136 | a duplicate iff either key exists, with the negotiation reason first and no reason otherwise |
| HhDedup.CheckDuplicateStatus | hh-main/src/negotiations/queue.processor.ts:109-137 | a duplicate iff `negotiation:<id>` or `application:<user>:<vacancy>:<resume>` exists; the negotiation reason wins when both do |
| HhDedup.MarkCommands | hh-main/src/negotiations/queue.processor.ts:164-170 | (definition) the two queued SETs, negotiation key first, both "processed", for 86400 s and 604800 s; MarkedKeys states the store they leave |
| HhDedup.MarkedKeys | hh-main/src/negotiations/queue.processor.ts:164-173 | the pipeline sets both keys to "processed", for 86400 s and 604800 s, and touches nothing else |
| HhDedup.MarkProcessed | hh-main/src/negotiations/queue.processor.ts:154-179 | marking a negotiation sets exactly its two keys with their expiries |
| HhDedup.MarkedIsDuplicate | hh-main/src/negotiations/queue.processor.ts:117-173 | a marked negotiation is a duplicate for the negotiation reason |
| HhDedup.SameApplicationIsDuplicate | hh-main/src/negotiations/queue.processor.ts:129-134 | a new negotiation for a marked application is a duplicate for the application reason |
| HhDedup.MarkAffectsOnlyItsKeys | hh-main/src/negotiations/queue.processor.ts:117-173 | a mark does not change the status of a negotiation that shares no key |
| HhDedup.RateLimitDelay | hh-main/src/negotiations/queue.processor.ts:142-152 | the wait is never negative; it is positive iff `last != 0` and less than 1000 ms have passed, and then it ends exactly 1000 ms after `last` |
| HhDedup.FirstPostNeverWaits | hh-main/src/negotiations/queue.processor.ts:142-152 | the first post never waits |
| HhDedup.PostsAtLeastASecondApart | hh-main/src/negotiations/queue.processor.ts:142-152 | after an earlier post, the next goes out no sooner than 1000 ms after it, and waits at most 1000 ms when the clock has not gone back |
| HhQueueProcessor.Body | hh-main/src/negotiations/queue.processor.ts:58-62 | (definition) the posted body `{negotiationId, vacancy, resume}`; NewNegotiationIsPostedThenMarked states that it is what goes out |
| HhQueueProcessor.Target | hh-main/src/negotiations/queue.processor.ts:66-68 | the webhook base URL is the routing table's entry for the manager id's text, and a missing id reads "undefined" |
| HhQueueProcessor.Deliver | hh-main/src/negotiations/queue.processor.ts:64-76 | after the rate-limit wait it posts; a failed post is thrown with nothing marked and `last` unchanged; a successful one sets `last` to the time after the post and runs the pipeline, whose failure is thrown with Redis unchanged |
| HhQueueProcessor.ProcessJob | hh-main/src/negotiations/queue.processor.ts:28-86 | the vacancy fetch comes first, and earlier effects are kept |
| HhQueueProcessor.ProcessCases | hh-main/src/negotiations/queue.processor.ts:33-76 | (proof helper) ProcessJob case by case: a failed vacancy or resume fetch ends the job; after both fetches a rejected EXISTS fails it and a duplicate completes it; otherwise the job delivers |
| HhQueueProcessor.DuplicateSkipsPostAndMark | hh-main/src/negotiations/queue.processor.ts:44-56 | a duplicate, once the EXISTS checks answer, does both fetches, and then nothing else |
| HhQueueProcessor.NewNegotiationIsPostedThenMarked | hh-main/src/negotiations/queue.processor.ts:58-76 | a new negotiation is fetched, waited for, posted with `{negotiationId, vacancy, resume}` and then marked |
| HhQueueProcessor.FailuresAreRethrown | hh-main/src/negotiations/queue.processor.ts:28-86 | the job completes iff both fetches and the EXISTS checks succeed and it is a duplicate or both post and mark succeed; every failure is the one thrown |
| HhQueueProcessor.LastMovesOnlyAfterPost | hh-main/src/negotiations/queue.processor.ts:66-69 | `lastWebhookRequestTime` changes only after a successful post |
| HhQueueProcessor.MarkOnlyAfterPost | hh-main/src/negotiations/queue.processor.ts:66-76 | Redis is unchanged, or marked after a successful post |
| HhQueueProcessor.ExecFollowsPost | hh-main/src/negotiations/queue.processor.ts:66-76 | every pipeline exec directly follows a post |
| HhQueueProcessor.SuccessivePostsAreSpaced | hh-main/src/negotiations/queue.processor.ts:65-69 | the next post goes out at least 1000 ms after the last successful one |
| HhQueueProcessor.RedeliveryIsDropped | hh-main/src/negotiations/queue.processor.ts:44-76 | a negotiation processed once is dropped as a duplicate the next time its EXISTS checks answer |
| HhQueueProcessor.FailedMarkPostsAgain | hh-main/src/negotiations/queue.processor.ts:66-85 | a failed mark after a post means the retry, when its EXISTS checks answer, posts again (at-least-once delivery) |
| HhQueueProcessor.QueueProcessor.constructor | hh-main/src/negotiations/queue.processor.ts:14-26 | the worker starts with `lastWebhookRequestTime` 0 and nothing done |
| HhQueueProcessor.QueueProcessor.CheckDuplicateStatus | hh-main/src/negotiations/queue.processor.ts:109-137 | a rejected EXISTS is thrown as a Redis error; otherwise the status is CheckDuplicateStatus of the store; nothing changes |
| HhQueueProcessor.QueueProcessor.RateLimit | hh-main/src/negotiations/queue.processor.ts:142-152 | it sleeps RateLimitDelay when that is positive and changes no field |
| HhQueueProcessor.QueueProcessor.UpdateNegotiationStatus | hh-main/src/negotiations/queue.processor.ts:154-179 | it runs the two-command pipeline; on success the store is MarkProcessed, on failure it is unchanged and the error is rethrown |
| HhQueueProcessor.QueueProcessor.Process | hh-main/src/negotiations/queue.processor.ts:28-86 | the fields and the result are those of ProcessJob |
| HhQueueProcessor.QueueProcessor.PostAndMark | hh-main/src/negotiations/queue.processor.ts:64-76 | the fields and the result are those of Deliver with the negotiation's two keys: wait, post, then (after a successful post) `last` and the pipeline |
| HhQueue.AddNegotiationJob | hh-main/src/negotiations/queue.service.ts:15-33 | one job is appended, named "process-negotiation", with payload `{negotiation}`, 10 attempts, exponential backoff from 1000 ms, removed on completion and kept on failure |
| HhQueue.JobLifecycle | hh-main/src/negotiations/queue.service.ts:21-29 | the number of attempts stays within the script, and a job is pending iff every attempt so far failed and attempts remain |
| HhQueue.AtMostTenAttempts | hh-main/src/negotiations/queue.service.ts:22 | a negotiation job is attempted at most ten times |
| HhQueue.FailingJobIsKept | hh-main/src/negotiations/queue.service.ts:22-28 | a job failing every attempt is kept after the last one, having waited delay·2^k before each retry |
| HhQueue.NegotiationJobGivesUpAfterTen | hh-main/src/negotiations/queue.service.ts:22-28 | ten failures keep the job, after nine waits from 1 s to 256 s |
| HhQueue.SucceedingJobIsRemoved | hh-main/src/negotiations/queue.service.ts:22-27 | the first attempt that succeeds completes the job, and the job is removed |
| HhService.RequestConfig | hh-main/src/negotiations/hh.service.ts:19-27 | (definition) the subscription body: one NEW_NEGOTIATION_VACANCY action with null settings and the URL `BASE_URL + "/hh/negotiation"`; NextRequest states that both writes carry it |
| HhService.NextRequest | hh-main/src/negotiations/hh.service.ts:33-46 | POST iff `items` has no length; PUT iff it has a length and a first item; reading the id of a null or undefined first item throws; both carry the subscription body |
| HhService.CheckOrSubscribe | hh-main/src/negotiations/hh.service.ts:17-49 | a success means the list request succeeded and a write was chosen; earlier requests stay in the log |
| HhService.NoSubscriptionCreates | hh-main/src/negotiations/hh.service.ts:33-39 | a missing or empty `items` POSTs the subscription body to `/webhook/subscriptions` |
| HhService.ExistingSubscriptionIsUpdated | hh-main/src/negotiations/hh.service.ts:40-46 | listed subscriptions lead to a PUT to `/webhook/subscriptions/<id of the first>` |
| HhService.OnlyListAndChosenWrite | hh-main/src/negotiations/hh.service.ts:28-47 | the only API requests sent are the list request and the one chosen write, and the write only after the list succeeded |
| HhService.ListThenChosenWriteSent | hh-main/src/negotiations/hh.service.ts:28-47 | after a successful list with a chosen write, the API requests are the list part followed by the write part; the list request was sent first, and the chosen write is sent next unless the refresh in front of it fails, so a successful reconcile sent it |
| HhService.ListFailureWritesNothing | hh-main/src/negotiations/hh.service.ts:28-31 | a failed list request is thrown and no write is made |
| HhService.CheckOrSubscribeKeepsHeaderInSync | hh-main/src/negotiations/hh.service.ts:28-46 | reconciling keeps the client's header equal to "Bearer " + the stored token |
| HhService.ExchangeCode | hh-main/src/negotiations/hh.service.ts:51-55 | the code grant is sent; on success the reply's tokens are stored |
| HhService.ProcessNegotiationWebhook | hh-main/src/negotiations/hh.service.ts:57-61 | exactly one job is enqueued, with the negotiation as its payload, and the queue is otherwise unchanged |

## Left out

- Logging, Sentry, the controllers, the modules and bootstrap are left out. They hold no logic. `processNegotiationWebhook` is called without `await` at hh-main/src/negotiations/hh.controller.ts:38-41, so a failed enqueue is not seen by the caller; that is not modelled.
- `subscribeToWebhook` and `unsubscribeToWebhook` (avito.service.ts:97-132) are left out: they renew the token and then make one call whose failure is swallowed.
- The file system is left out. A token or account file is an `Option` input. A write is a ghost snapshot that follows the in-memory value. A malformed file or a malformed token reply is not modelled.
- Every HTTP call is an input reply. So is every Redis call: each Avito GET and SET, the worker's two EXISTS and its pipeline `exec` either answer or are rejected with a message. The queue itself is not modelled beyond the job options. The exhausted-script `NoResponse` error of the hh.ru model is an artifact of scripting the replies.
- HhQueueProcessor.ProcessJob: the two EXISTS calls are awaited together, so one `existsCheck` reply stands for both. Which of the two was rejected is not told apart.
- JsValue.Value: a JavaScript number is a double, but the model uses an unbounded integer. Fractions, NaN, infinities and the loss of precision past 2^53 are not modelled; the relays only carry identifiers, timestamps and counters.
- JsValue.Spread: spreading a string or an array copies its index keys in JavaScript, but the model gives `{}`. The merge at avito-main/src/avito/avito.service.ts:172-176 spreads the applicant, the resume and their `data`, which the API gives as objects.
- AvitoMerge.GetResume: an array resume body is answered with null. JavaScript would set `data` on the array and return it (avito-main/src/avito/avito.service.ts:303-307). Other non-object bodies do give null, since writing a property on them throws in strict mode and the error is caught.
- AvitoRelay.ErrorResponse: the posted `errorDetails` is left undefined. The source posts `error.stack` (avito-main/src/avito/avito.service.ts:236), and stack traces are not modelled.
- AvitoKeys.MakeRedisKey: the fields are written in the order of the sorted entries. A JavaScript object enumerates index-like names (such as "9" or "10") first, in numeric order, so keys with such names differ from the model's. The lemmas over `WellKeyed` entries therefore assume names that do not start with a digit. The service's own names `apply_id`, `vacancy_id` and `applicant_id` are of that kind.
- Time does not pass within one hh.ru request: one `now` is used for the expiry check, the write and the replay. The queue worker reads the clock twice, before the wait and after the post.
- Concurrency is left out. The startup refresh, which is neither awaited nor coalesced, runs to completion in the constructor before any request. Parallel requests that each refresh are not modelled.
- HhQueueProcessor.ProcessJob: the two fetches are their outcomes, not runs of the API client's `request`. The client is modelled on its own in HhTokens and HhApi.
- HhQueueProcessor.Deliver: a failing `pipeline.exec` is taken to have applied neither SET. Redis may in fact have applied some of them; the model takes the case where nothing was applied.
- Expiry of Redis keys over time is not modelled. The TTL is recorded with the value.
- HhQueue.JobLifecycle: the queue library's retry semantics are an assumption, not something the repository's code shows. Those semantics are attempt counting, the wait `delay * 2^(n-1)` before retry n, and removal or retention of a finished job.
- The replay after a 403 reuses the original request config, so it carries the Authorization header of the first attempt, not the refreshed one. This follows the axios config merge. How axios merges headers is not modelled beyond that.
- The axios `baseURL` fallback, when the routing table has no entry for a manager, is library behaviour. `Target` gives the entry, which is then undefined.
- `parseContacts` is not called anywhere in the repository. It is modelled anyway.
- A percent-encoding of lone surrogates in `qs.stringify` is not modelled: Dafny's `char` is a Unicode scalar value.
- AvitoKeys.SortEntriesSorted: the order compares Unicode scalar values, while JavaScript's default sort compares UTF-16 code units. The two disagree when a character above U+FFFF meets one in U+E000 to U+FFFF at the same position: JavaScript sorts the first one lower, because its high surrogate (U+D800 to U+DBFF) is below U+E000. The service never reaches this case. Its key names are fixed to `apply_id`, `vacancy_id` and `applicant_id` (avito-main/src/avito/avito.service.ts:348-350), and the applicant key's two names already differ at their first character.
- The empty-`applyId` route check is at avito-main/src/avito/avito.controller.ts:54 and belongs to the controller. Processing is modelled for any id.
