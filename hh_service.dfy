/** The hh.ru service: the webhook-subscription reconciler (one list request,
    then one create or one update of the first subscription, both through the
    token-refreshing API client), the code exchange and the webhook entry
    point that only enqueues. */
module HhService {
  import opened JsValue
  import opened HhTokens
  import opened HhQueue

  /** A request handed to the API client's `request`. */
  datatype ApiRequest = ApiRequest(verb: string, url: string, data: Value)

  datatype SubscribeError = ApiFailure(apiError: ApiError) | TypeError(message: string)

  /** The client state after checkOrSubscribe, how it ended and the replies
      still unused. */
  datatype Outcome = Outcome(session: Session, result: Result<(), SubscribeError>, rest: Upstream)

  const SubscriptionsPath := "/webhook/subscriptions"

  /** The subscription body: one NEW_NEGOTIATION_VACANCY action without
      settings, and the service's own webhook URL (`BASE_URL` may be unset). */
  function RequestConfig(baseUrl: Option<string>): Value {
    var action := Obj(map["settings" := Null, "type" := Str("NEW_NEGOTIATION_VACANCY")]);
    var base := if baseUrl.Some? then baseUrl.value else "undefined";
    Obj(map["actions" := Arr([action]), "url" := Str(base + "/hh/negotiation")])
  }

  /** `v?.length`. */
  function Length(v: Value): Value {
    match v
    case Arr(items) => Num(|items|)
    case Str(s) => Num(|s|)
    case _ => Prop(v, "length")
  }

  /** `v[0]`. */
  function First(v: Value): Value {
    match v
    case Arr(items) => if items == [] then Undefined else items[0]
    case Str(s) => if s == "" then Undefined else Str([s[0]])
    case _ => Prop(v, "0")
  }

  function ListRequest(): ApiRequest {
    ApiRequest("GET", SubscriptionsPath, Undefined)
  }

  function AsCall(q: ApiRequest): Call {
    ApiCall(q.verb, q.url, q.data)
  }

  /** The write that follows a successful list: a POST when `data.items` has
      no length, otherwise a PUT to the first item's id; reading `id` of a
      null or undefined first item throws. Both writes carry the same body. */
  function NextRequest(baseUrl: Option<string>, data: Value): (r: Result<ApiRequest, SubscribeError>)
    ensures r.Ok? ==> r.value.data == RequestConfig(baseUrl)
    ensures r.Ok? && r.value.verb == "POST" <==> !Truthy(Length(Prop(data, "items")))
    ensures r.Ok? && r.value.verb == "PUT" <==>
              Truthy(Length(Prop(data, "items"))) && !(First(Prop(data, "items")).Undefined? || First(Prop(data, "items")).Null?)
    ensures r.Err? ==> r.error.TypeError?
  {
    var items := Prop(data, "items");
    if !Truthy(Length(items)) then Ok(ApiRequest("POST", SubscriptionsPath, RequestConfig(baseUrl)))
    else if First(items).Undefined? || First(items).Null? then
      var nullish := if First(items).Null? then "null" else "undefined";
      Err(TypeError("Cannot read properties of " + nullish + " (reading 'id')"))
    else Ok(ApiRequest("PUT", SubscriptionsPath + "/" + ToJsString(Prop(First(items), "id")), RequestConfig(baseUrl)))
  }

  /** checkOrSubscribe through the API client. */
  function CheckOrSubscribe(s: Session, baseUrl: Option<string>, now: int, up: Upstream): (r: Outcome)
    ensures |s.sent| <= |r.session.sent| && r.session.sent[..|s.sent|] == s.sent
    ensures r.result.Ok? ==> var list := Request(s, "GET", SubscriptionsPath, Undefined, now, up);
                             list.result.Ok? && NextRequest(baseUrl, list.result.value).Ok?
  {
    var list := Request(s, "GET", SubscriptionsPath, Undefined, now, up);
    match list.result
    case Err(e) => Outcome(list.session, Err(ApiFailure(e)), list.rest)
    case Ok(data) =>
      match NextRequest(baseUrl, data)
      case Err(e) => Outcome(list.session, Err(e), list.rest)
      case Ok(q) =>
        var write := Request(list.session, q.verb, q.url, q.data, now, list.rest);
        Outcome(write.session, if write.result.Ok? then Ok(()) else Err(ApiFailure(write.result.error)), write.rest)
  }

  /** The write checkOrSubscribe goes on to, if any. */
  function ChosenWrite(s: Session, baseUrl: Option<string>, now: int, up: Upstream): Option<ApiRequest> {
    var list := Request(s, "GET", SubscriptionsPath, Undefined, now, up);
    if list.result.Ok? && NextRequest(baseUrl, list.result.value).Ok? then Some(NextRequest(baseUrl, list.result.value).value)
    else None
  }

  /** No subscription yet (no `items`, or an empty list): a POST of a new
      subscription. */
  lemma NoSubscriptionCreates(baseUrl: Option<string>, data: Value)
    requires Prop(data, "items").Undefined? || Prop(data, "items") == Arr([])
    ensures NextRequest(baseUrl, data) == Ok(ApiRequest("POST", "/webhook/subscriptions", RequestConfig(baseUrl)))
  {
  }

  /** With subscriptions listed, the first one is updated by a PUT to its id. */
  lemma ExistingSubscriptionIsUpdated(baseUrl: Option<string>, data: Value)
    requires Prop(data, "items").Arr? && |Prop(data, "items").items| > 0
    requires Prop(data, "items").items[0].Obj?
    ensures var first := Prop(data, "items").items[0];
            NextRequest(baseUrl, data) ==
              Ok(ApiRequest("PUT", "/webhook/subscriptions/" + ToJsString(Prop(first, "id")), RequestConfig(baseUrl)))
  {
    var items := Prop(data, "items");
    assert Length(items) == Num(|items.items|);
    assert First(items) == items.items[0];
    assert SubscriptionsPath + "/" == "/webhook/subscriptions/";
    assert SubscriptionsPath + "/" + ToJsString(Prop(items.items[0], "id")) ==
           "/webhook/subscriptions/" + ToJsString(Prop(items.items[0], "id"));
  }

  /** Nothing but the list request and the one chosen write reaches the API
      (each at most twice, the replay after a 403 included), and the write
      only after a successful list. */
  lemma {:induction false} OnlyListAndChosenWrite(s: Session, baseUrl: Option<string>, now: int, up: Upstream)
    ensures var r := CheckOrSubscribe(s, baseUrl, now, up);
            var w := ChosenWrite(s, baseUrl, now, up);
            var api := ApiSent(r.session.sent[|s.sent|..]);
            |api| <= 4 &&
            forall i :: 0 <= i < |api| ==>
              api[i].call == AsCall(ListRequest()) || (w.Some? && api[i].call == AsCall(w.value))
  {
    var r := CheckOrSubscribe(s, baseUrl, now, up);
    var list := Request(s, "GET", SubscriptionsPath, Undefined, now, up);
    RequestSentAtMostTwice(s, "GET", SubscriptionsPath, Undefined, now, up);
    var listed := ApiSent(list.session.sent[|s.sent|..]);
    if list.result.Ok? && NextRequest(baseUrl, list.result.value).Ok? {
      var q := NextRequest(baseUrl, list.result.value).value;
      var write := Request(list.session, q.verb, q.url, q.data, now, list.rest);
      assert r.session == write.session;
      RequestSentAtMostTwice(list.session, q.verb, q.url, q.data, now, list.rest);
      SentSplit(list.session.sent, write.session.sent, |s.sent|);
      ApiSentAppend(list.session.sent[|s.sent|..], write.session.sent[|list.session.sent|..]);
    } else {
      assert r.session == list.session;
    }
  }

  /** After a successful list the API sees the list request first and then the
      chosen write: the list request was sent, and the write goes out unless
      the token refresh in front of it fails; a subscription that ended well
      had its write sent. */
  lemma {:induction false} ListThenChosenWriteSent(s: Session, baseUrl: Option<string>, now: int, up: Upstream)
    requires Request(s, "GET", SubscriptionsPath, Undefined, now, up).result.Ok?
    requires NextRequest(baseUrl, Request(s, "GET", SubscriptionsPath, Undefined, now, up).result.value).Ok?
    ensures var r := CheckOrSubscribe(s, baseUrl, now, up);
            var list := Request(s, "GET", SubscriptionsPath, Undefined, now, up);
            var q := ChosenWrite(s, baseUrl, now, up).value;
            var listed := ApiSent(list.session.sent[|s.sent|..]);
            var written := ApiSent(r.session.sent[|list.session.sent|..]);
            |list.session.sent| <= |r.session.sent| &&
            ApiSent(r.session.sent[|s.sent|..]) == listed + written &&
            listed != [] && listed[0].call == AsCall(ListRequest()) &&
            (written != [] <==> !NeedsRefresh(list.session.store, now) || Refresh(list.session, true, now, list.rest).result.Ok?) &&
            (written != [] ==> written[0].call == AsCall(q)) &&
            (r.result.Ok? ==> written != [])
  {
    var r := CheckOrSubscribe(s, baseUrl, now, up);
    var list := Request(s, "GET", SubscriptionsPath, Undefined, now, up);
    var q := NextRequest(baseUrl, list.result.value).value;
    var write := Request(list.session, q.verb, q.url, q.data, now, list.rest);
    assert r.session == write.session;
    assert r.result.Ok? <==> write.result.Ok?;
    RequestSendsItsCall(s, "GET", SubscriptionsPath, Undefined, now, up);
    RequestSendsItsCall(list.session, q.verb, q.url, q.data, now, list.rest);
    SentSplit(list.session.sent, write.session.sent, |s.sent|);
    ApiSentAppend(list.session.sent[|s.sent|..], write.session.sent[|list.session.sent|..]);
  }

  /** A failed list request ends checkOrSubscribe with that failure and no
      write. */
  lemma ListFailureWritesNothing(s: Session, baseUrl: Option<string>, now: int, up: Upstream)
    requires Request(s, "GET", SubscriptionsPath, Undefined, now, up).result.Err?
    ensures var list := Request(s, "GET", SubscriptionsPath, Undefined, now, up);
            ChosenWrite(s, baseUrl, now, up).None? &&
            CheckOrSubscribe(s, baseUrl, now, up) == Outcome(list.session, Err(ApiFailure(list.result.error)), list.rest)
  {
  }

  /** checkOrSubscribe keeps the client's header in step with its token. */
  lemma CheckOrSubscribeKeepsHeaderInSync(s: Session, baseUrl: Option<string>, now: int, up: Upstream)
    requires HeaderInSync(s)
    ensures HeaderInSync(CheckOrSubscribe(s, baseUrl, now, up).session)
  {
    var list := Request(s, "GET", SubscriptionsPath, Undefined, now, up);
    RequestKeepsHeaderInSync(s, "GET", SubscriptionsPath, Undefined, now, up);
    if list.result.Ok? && NextRequest(baseUrl, list.result.value).Ok? {
      var q := NextRequest(baseUrl, list.result.value).value;
      RequestKeepsHeaderInSync(list.session, q.verb, q.url, q.data, now, list.rest);
    }
  }

  /** getTokens of the service: the client's code exchange, nothing more. */
  function ExchangeCode(s: Session, code: string, now: int, up: Upstream): (r: Run<()>)
    ensures |s.sent| < |r.session.sent| && r.session.sent[|s.sent|] == Sent(TokenCall(AuthorizationCode(code)), s.authorization)
    ensures FirstTokenReply(up).Ok? ==>
              r.result.Ok? && r.session.store.accessToken == FirstTokenReply(up).value.accessToken &&
              r.session.store.refreshToken == FirstTokenReply(up).value.refreshToken
  {
    GetTokens(s, code, now, up)
  }

  /** processNegotiationWebhook: the negotiation is enqueued as one job under
      the negotiation-job options, and nothing else happens to the queue. */
  function ProcessNegotiationWebhook(queue: seq<Job>, negotiation: Value): (r: seq<Job>)
    ensures |r| == |queue| + 1 && r[..|queue|] == queue
    ensures r[|queue|] == Job(JobName, Obj(map["negotiation" := negotiation]), NegotiationJobOptions)
  {
    AddNegotiationJob(queue, negotiation)
  }
}
