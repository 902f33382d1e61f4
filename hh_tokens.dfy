/** The token handling of the hh.ru API client as a state machine over values:
    the token store, the shared Authorization header and the log of what went
    on the wire. The hh.ru side is a script of replies, one consumed per call:
    token-endpoint replies and API replies in two queues. A call the script
    has no reply left for fails as a network error. */
module HhTokens {
  import opened JsValue

  /** The persisted token record; `expiresIn` is an absolute time in ms. */
  datatype TokenStore = TokenStore(accessToken: string, refreshToken: string, expiresIn: int)

  /** The store created when there is no token file. */
  const DefaultStore := TokenStore("", "", 0)

  /** The body of a token-endpoint reply; `expiresInSeconds` is a duration. */
  datatype TokenResponse = TokenResponse(accessToken: string, refreshToken: string, expiresInSeconds: int)

  /** What the client throws: a plain Error, or the HTTP client's error. */
  datatype ApiError = Plain(message: string) | Http(cause: HttpError)

  const AuthorizationRequired := "Authorization is required"

  datatype Grant = AuthorizationCode(code: string) | RefreshGrant(refreshToken: string)

  /** A request the client makes: `POST /token`, or an API request. */
  datatype Call = TokenCall(grant: Grant) | ApiCall(verb: string, url: string, data: Value)

  /** A request as sent, with the Authorization header of its config. */
  datatype Sent = Sent(call: Call, authorization: Option<string>)

  /** A successful reply: tokens from the token endpoint, data from the API. */
  datatype Answer = Tokens(tokens: TokenResponse) | Data(data: Value)

  datatype Upstream = Upstream(tokenReplies: seq<Result<TokenResponse, HttpError>>,
                               apiReplies: seq<Result<Value, HttpError>>)

  datatype Session = Session(store: TokenStore, authorization: Option<string>, sent: seq<Sent>)

  /** The state after an operation, what it returned or threw, and the replies
      still unused. */
  datatype Run<T> = Run(session: Session, result: Result<T, ApiError>, rest: Upstream)

  const NoResponse := HttpError(0, "no response")

  function Size(up: Upstream): nat {
    |up.tokenReplies| + |up.apiReplies|
  }

  function FirstTokenReply(up: Upstream): Result<TokenResponse, HttpError> {
    if up.tokenReplies == [] then Err(NoResponse) else up.tokenReplies[0]
  }

  function FirstApiReply(up: Upstream): Result<Value, HttpError> {
    if up.apiReplies == [] then Err(NoResponse) else up.apiReplies[0]
  }

  /** A reply of the right kind for the call. */
  predicate Fits(call: Call, a: Answer) {
    if call.TokenCall? then a.Tokens? else a.Data?
  }

  /** The reply hh.ru gives to `call`, and the script left after it. */
  function Respond(call: Call, up: Upstream): (r: (Result<Answer, HttpError>, Upstream))
    ensures Size(r.1) <= Size(up)
    ensures r.0.Err? && r.0.error.status == 403 ==> Size(r.1) < Size(up)
    ensures r.0.Ok? ==> Fits(call, r.0.value)
    ensures call.TokenCall? ==> r.0 == (match FirstTokenReply(up) case Ok(t) => Ok(Tokens(t)) case Err(e) => Err(e))
    ensures call.ApiCall? ==> r.0 == (match FirstApiReply(up) case Ok(v) => Ok(Data(v)) case Err(e) => Err(e))
  {
    if call.TokenCall? then
      if up.tokenReplies == [] then (Err(NoResponse), up)
      else
        var rest := up.(tokenReplies := up.tokenReplies[1..]);
        match up.tokenReplies[0]
        case Ok(t) => (Ok(Tokens(t)), rest)
        case Err(e) => (Err(e), rest)
    else
      if up.apiReplies == [] then (Err(NoResponse), up)
      else
        var rest := up.(apiReplies := up.apiReplies[1..]);
        match up.apiReplies[0]
        case Ok(v) => (Ok(Data(v)), rest)
        case Err(e) => (Err(e), rest)
  }

  /** The token check before a request and at startup: strictly past expiry. */
  predicate NeedsRefresh(store: TokenStore, now: int) {
    store.expiresIn < now
  }

  /** The header agrees with the stored access token whenever there is one. */
  predicate HeaderInSync(s: Session) {
    s.store.accessToken != "" ==> s.authorization == Some("Bearer " + s.store.accessToken)
  }

  /** readToken: the file's record, or the default one; the header is set only
      for a non-empty access token. */
  function ReadToken(file: Option<TokenStore>): (s: Session)
    ensures HeaderInSync(s) && s.sent == []
    ensures file.None? ==> s == Session(DefaultStore, None, [])
    ensures file.Some? ==> s.store == file.value
  {
    var store := if file.Some? then file.value else DefaultStore;
    Session(store, if store.accessToken != "" then Some("Bearer " + store.accessToken) else None, [])
  }

  /** writeTokens: all three fields replaced together and the header set. */
  function WriteTokens(s: Session, t: TokenResponse, now: int): (r: Session)
    ensures HeaderInSync(r) && r.authorization == Some("Bearer " + t.accessToken)
    ensures r.sent == s.sent
  {
    Session(TokenStore(t.accessToken, t.refreshToken, t.expiresInSeconds * 1000 + now),
            Some("Bearer " + t.accessToken), s.sent)
  }

  /** Freshly written tokens are used as they are until `expires_in` seconds
      after the write, and refreshed from the millisecond after. */
  lemma WrittenTokensExpire(s: Session, t: TokenResponse, now: int, later: int)
    ensures NeedsRefresh(WriteTokens(s, t, now).store, later) <==> later > now + 1000 * t.expiresInSeconds
    ensures WriteTokens(s, t, now).store.accessToken == t.accessToken
    ensures WriteTokens(s, t, now).store.refreshToken == t.refreshToken
  {
  }

  /** One request through the HTTP client and its response interceptor. `armed`
      is whether the interceptor may still refresh and replay: it is installed
      and the config's `_retry` flag is unset. A 403 then refreshes the tokens
      and replays the same config, header included, once; anything else is
      passed on. */
  function Send(s: Session, call: Call, header: Option<string>, armed: bool, now: int, up: Upstream): (r: Run<Answer>)
    decreases Size(up), 0
    ensures Size(r.rest) <= Size(up)
    ensures r.result.Ok? ==> Fits(call, r.result.value)
    ensures |s.sent| < |r.session.sent| && r.session.sent[..|s.sent|] == s.sent
    ensures r.session.sent[|s.sent|] == Sent(call, header)
  {
    var (reply, up1) := Respond(call, up);
    var s1 := s.(sent := s.sent + [Sent(call, header)]);
    match reply
    case Ok(a) => Run(s1, Ok(a), up1)
    case Err(e) =>
      if e.status == 403 && armed then
        var refreshed := Refresh(s1, true, now, up1);
        if refreshed.result.Err? then Run(refreshed.session, Err(refreshed.result.error), refreshed.rest)
        else
          var replay := Send(refreshed.session, call, header, false, now, refreshed.rest);
          assert replay.session.sent[..|s.sent|] == replay.session.sent[..|s1.sent|][..|s.sent|];
          replay
      else Run(s1, Err(Http(e)), up1)
  }

  /** refreshToken: the refresh grant, sent through the client (`installed` is
      whether the response interceptor is in place yet). */
  function Refresh(s: Session, installed: bool, now: int, up: Upstream): (r: Run<()>)
    decreases Size(up), 1
    ensures Size(r.rest) <= Size(up)
    ensures |s.sent| <= |r.session.sent| && r.session.sent[..|s.sent|] == s.sent
    ensures s.store.refreshToken == "" ==> r == Run(s, Err(Plain(AuthorizationRequired)), up)
    ensures s.store.refreshToken != "" ==>
              |s.sent| < |r.session.sent| &&
              r.session.sent[|s.sent|] == Sent(TokenCall(RefreshGrant(s.store.refreshToken)), s.authorization)
  {
    if s.store.refreshToken == "" then Run(s, Err(Plain(AuthorizationRequired)), up)
    else
      var sent := Send(s, TokenCall(RefreshGrant(s.store.refreshToken)), s.authorization, installed, now, up);
      match sent.result
      case Err(e) => Run(sent.session, Err(e), sent.rest)
      case Ok(a) => Run(WriteTokens(sent.session, a.tokens, now), Ok(()), sent.rest)
  }

  /** getTokens: the authorization-code grant, stored through writeTokens. */
  function GetTokens(s: Session, code: string, now: int, up: Upstream): (r: Run<()>)
    ensures |s.sent| < |r.session.sent| && r.session.sent[..|s.sent|] == s.sent
    ensures r.session.sent[|s.sent|] == Sent(TokenCall(AuthorizationCode(code)), s.authorization)
    ensures FirstTokenReply(up).Ok? ==>
              r == Run(WriteTokens(s.(sent := s.sent + [r.session.sent[|s.sent|]]), FirstTokenReply(up).value, now),
                       Ok(()), up.(tokenReplies := up.tokenReplies[1..]))
  {
    var sent := Send(s, TokenCall(AuthorizationCode(code)), s.authorization, true, now, up);
    match sent.result
    case Err(e) => Run(sent.session, Err(e), sent.rest)
    case Ok(a) => Run(WriteTokens(sent.session, a.tokens, now), Ok(()), sent.rest)
  }

  /** request: refresh first when the stored token is past its expiry, then the
      request with the header in force at that point. */
  function Request(s: Session, verb: string, url: string, data: Value, now: int, up: Upstream): (r: Run<Value>)
    ensures |s.sent| <= |r.session.sent| && r.session.sent[..|s.sent|] == s.sent
    ensures NeedsRefresh(s.store, now) && s.store.refreshToken == "" ==>
              r == Run(s, Err(Plain(AuthorizationRequired)), up)
    ensures NeedsRefresh(s.store, now) && s.store.refreshToken != "" ==>
              |s.sent| < |r.session.sent| && r.session.sent[|s.sent|] == Sent(TokenCall(RefreshGrant(s.store.refreshToken)), s.authorization)
    ensures !NeedsRefresh(s.store, now) ==>
              |s.sent| < |r.session.sent| && r.session.sent[|s.sent|] == Sent(ApiCall(verb, url, data), s.authorization)
  {
    var pre := if NeedsRefresh(s.store, now) then Refresh(s, true, now, up) else Run(s, Ok(()), up);
    if pre.result.Err? then Run(pre.session, Err(pre.result.error), pre.rest)
    else
      var sent := Send(pre.session, ApiCall(verb, url, data), pre.session.authorization, true, now, pre.rest);
      assert sent.session.sent[..|s.sent|] == sent.session.sent[..|pre.session.sent|][..|s.sent|];
      Run(sent.session, if sent.result.Ok? then Ok(sent.result.value.data) else Err(sent.result.error), sent.rest)
  }

  /** The constructor: readToken, then, for a token already past expiry, a
      refresh whose failure is only logged. The refresh's token call is made
      before the response interceptor is installed. */
  function Startup(file: Option<TokenStore>, now: int, up: Upstream): (r: Run<()>)
    ensures r.result.Ok?
    ensures !NeedsRefresh(ReadToken(file).store, now) ==> r == Run(ReadToken(file), Ok(()), up)
  {
    var s := ReadToken(file);
    if NeedsRefresh(s.store, now) then
      var refreshed := Refresh(s, false, now, up);
      Run(refreshed.session, Ok(()), refreshed.rest)
    else Run(s, Ok(()), up)
  }

  /** The API requests among what was sent. */
  function ApiSent(sent: seq<Sent>): (r: seq<Sent>)
    ensures |r| <= |sent|
    ensures forall i :: 0 <= i < |r| ==> r[i].call.ApiCall?
  {
    if sent == [] then []
    else (if sent[0].call.ApiCall? then [sent[0]] else []) + ApiSent(sent[1..])
  }

  lemma {:induction false} ApiSentAppend(a: seq<Sent>, b: seq<Sent>)
    ensures ApiSent(a + b) == ApiSent(a) + ApiSent(b)
  {
    if a != [] {
      assert (a + b)[0] == a[0];
      assert (a + b)[1..] == a[1..] + b;
      ApiSentAppend(a[1..], b);
    } else {
      assert a + b == b;
    }
  }

  /** Everything sent from position `k` on is a token request. */
  predicate TokenOnlyFrom(sent: seq<Sent>, k: nat) {
    forall i :: k <= i < |sent| ==> sent[i].call.TokenCall?
  }

  lemma {:induction false} TokenCallsOnly(a: seq<Sent>, k: nat)
    requires k <= |a| && TokenOnlyFrom(a, k)
    decreases |a| - k
    ensures ApiSent(a[k..]) == []
  {
    if k < |a| {
      assert a[k..][1..] == a[k + 1..];
      TokenCallsOnly(a, k + 1);
    }
  }

  /** A log that extends another splits into the old suffix and the new part. */
  lemma SentSplit(a: seq<Sent>, b: seq<Sent>, k: nat)
    requires k <= |a| <= |b| && b[..|a|] == a
    ensures b[k..] == a[k..] + b[|a|..]
  {
    assert forall i :: k <= i < |a| ==> b[i] == b[..|a|][i];
  }

  lemma TokenOnlyExtends(a: seq<Sent>, b: seq<Sent>, k: nat)
    requires k <= |a| <= |b| && b[..|a|] == a
    requires TokenOnlyFrom(a, k) && TokenOnlyFrom(b, |a|)
    ensures TokenOnlyFrom(b, k)
  {
    assert forall i :: k <= i < |a| ==> b[i] == b[..|a|][i];
  }

  /** Sending a token request, interceptor included, sends nothing but token
      requests. */
  lemma {:induction false} SendTokenOnly(s: Session, call: Call, header: Option<string>, armed: bool, now: int, up: Upstream)
    requires call.TokenCall?
    decreases Size(up), 0
    ensures TokenOnlyFrom(Send(s, call, header, armed, now, up).session.sent, |s.sent|)
  {
    var (reply, up1) := Respond(call, up);
    var s1 := s.(sent := s.sent + [Sent(call, header)]);
    assert TokenOnlyFrom(s1.sent, |s.sent|);
    if reply.Err? && reply.error.status == 403 && armed {
      RefreshTokenOnly(s1, true, now, up1);
      var refreshed := Refresh(s1, true, now, up1);
      TokenOnlyExtends(s1.sent, refreshed.session.sent, |s.sent|);
      if refreshed.result.Ok? {
        SendTokenOnly(refreshed.session, call, header, false, now, refreshed.rest);
        var replay := Send(refreshed.session, call, header, false, now, refreshed.rest);
        TokenOnlyExtends(refreshed.session.sent, replay.session.sent, |s.sent|);
      }
    }
  }

  /** A refresh sends nothing but token requests. */
  lemma {:induction false} RefreshTokenOnly(s: Session, installed: bool, now: int, up: Upstream)
    decreases Size(up), 1
    ensures TokenOnlyFrom(Refresh(s, installed, now, up).session.sent, |s.sent|)
  {
    if s.store.refreshToken != "" {
      SendTokenOnly(s, TokenCall(RefreshGrant(s.store.refreshToken)), s.authorization, installed, now, up);
    }
  }

  /** Once `_retry` is set the interceptor passes everything on: the request
      goes out exactly once and its reply is the result. */
  lemma ReplayIsNeverReplayed(s: Session, call: Call, header: Option<string>, now: int, up: Upstream)
    ensures var r := Send(s, call, header, false, now, up);
            r.session == s.(sent := s.sent + [Sent(call, header)]) &&
            r.rest == Respond(call, up).1 &&
            r.result == (match Respond(call, up).0 case Ok(a) => Ok(a) case Err(e) => Err(Http(e)))
  {
  }

  /** Split of what one intercepted request sent: the request, what the
      refresh sent, and the replay. */
  lemma SentAfterReplay(s: Session, s1: Session, refreshed: Session, replay: Session, x: Sent)
    requires s1.sent == s.sent + [x]
    requires |s1.sent| <= |refreshed.sent| && refreshed.sent[..|s1.sent|] == s1.sent
    requires |refreshed.sent| <= |replay.sent| && replay.sent[..|refreshed.sent|] == refreshed.sent
    ensures replay.sent[|s.sent|..] ==
            [x] + refreshed.sent[|s1.sent|..] + replay.sent[|refreshed.sent|..]
  {
    SentSplit(s1.sent, refreshed.sent, |s.sent|);
    SentSplit(refreshed.sent, replay.sent, |s.sent|);
    assert s1.sent[|s.sent|..] == [x];
  }

  /** At most one replay: an API request goes out once, or — after a 403 the
      interceptor was armed for — twice, both times with the same config. */
  lemma {:induction false} ApiRequestReplayedAtMostOnce(s: Session, call: Call, header: Option<string>, armed: bool,
                                                       now: int, up: Upstream)
    requires call.ApiCall?
    ensures var r := Send(s, call, header, armed, now, up);
            ApiSent(r.session.sent[|s.sent|..]) == [Sent(call, header)] ||
            (ApiSent(r.session.sent[|s.sent|..]) == [Sent(call, header), Sent(call, header)] &&
             armed && FirstApiReply(up).Err? && FirstApiReply(up).error.status == 403)
  {
    var (reply, up1) := Respond(call, up);
    var x := Sent(call, header);
    var s1 := s.(sent := s.sent + [x]);
    var r := Send(s, call, header, armed, now, up);
    if reply.Err? && reply.error.status == 403 && armed {
      RefreshTokenOnly(s1, true, now, up1);
      var refreshed := Refresh(s1, true, now, up1);
      var mid := refreshed.session.sent[|s1.sent|..];
      TokenCallsOnly(refreshed.session.sent, |s1.sent|);
      if refreshed.result.Ok? {
        var replay := Send(refreshed.session, call, header, false, now, refreshed.rest);
        ReplayIsNeverReplayed(refreshed.session, call, header, now, refreshed.rest);
        SentAfterReplay(s, s1, refreshed.session, replay.session, x);
        assert replay.session.sent[|refreshed.session.sent|..] == [x];
        ApiSentAppend([x] + mid, [x]);
        ApiSentAppend([x], mid);
      } else {
        SentAfterReplay(s, s1, refreshed.session, refreshed.session, x);
        assert refreshed.session.sent[|refreshed.session.sent|..] == [];
        ApiSentAppend([x] + mid, []);
        ApiSentAppend([x], mid);
      }
    } else {
      assert r.session.sent[|s.sent|..] == [x];
    }
  }

  /** A 403 on an API request, with a refresh token the token endpoint
      accepts: the request, the refresh grant and the replay go out in that
      order, the replay with the request's original header, and the replay's
      reply is the result. */
  lemma ForbiddenRefreshesAndReplays(s: Session, call: Call, header: Option<string>, now: int, up: Upstream)
    requires call.ApiCall? && FirstApiReply(up).Err? && FirstApiReply(up).error.status == 403
    requires s.store.refreshToken != "" && FirstTokenReply(up).Ok?
    ensures var r := Send(s, call, header, true, now, up);
            var grant := Sent(TokenCall(RefreshGrant(s.store.refreshToken)), s.authorization);
            var left := Upstream(up.tokenReplies[1..], up.apiReplies[1..]);
            r.session.sent == s.sent + [Sent(call, header), grant, Sent(call, header)] &&
            r.session.store == WriteTokens(s, FirstTokenReply(up).value, now).store &&
            r.session.authorization == Some("Bearer " + FirstTokenReply(up).value.accessToken) &&
            r.result == (match FirstApiReply(left) case Ok(v) => Ok(Data(v)) case Err(e) => Err(Http(e))) &&
            r.rest == Respond(call, left).1
  {
    var t := FirstTokenReply(up).value;
    assert up.apiReplies != [] && up.tokenReplies != [];
    var up1 := up.(apiReplies := up.apiReplies[1..]);
    var left := Upstream(up.tokenReplies[1..], up.apiReplies[1..]);
    assert Respond(call, up) == (Err(FirstApiReply(up).error), up1);
    var s1 := s.(sent := s.sent + [Sent(call, header)]);
    var grant := TokenCall(RefreshGrant(s.store.refreshToken));
    assert FirstTokenReply(up1) == Ok(t);
    assert Respond(grant, up1) == (Ok(Tokens(t)), left);
    var tokens := Send(s1, grant, s1.authorization, true, now, up1);
    assert tokens == Run(s1.(sent := s1.sent + [Sent(grant, s.authorization)]), Ok(Tokens(t)), left);
    var refreshed := Refresh(s1, true, now, up1);
    assert refreshed == Run(WriteTokens(tokens.session, t, now), Ok(()), left);
    ReplayIsNeverReplayed(refreshed.session, call, header, now, left);
  }

  /** Any other failure, 401 included, is passed on untouched: one request
      sent, no refresh, and the HTTP error thrown. */
  lemma UnhandledErrorPassesThrough(s: Session, call: Call, header: Option<string>, armed: bool, now: int, up: Upstream)
    requires call.ApiCall? && FirstApiReply(up).Err? && FirstApiReply(up).error.status != 403
    ensures Send(s, call, header, armed, now, up) ==
            Run(s.(sent := s.sent + [Sent(call, header)]), Err(Http(FirstApiReply(up).error)), Respond(call, up).1)
  {
  }

  /** A refresh whose token call fails with the interceptor out of play leaves
      the store and the header alone and rethrows the HTTP error. */
  lemma RefreshFailureKeepsTokens(s: Session, installed: bool, now: int, up: Upstream)
    requires s.store.refreshToken != ""
    requires FirstTokenReply(up).Err?
    requires FirstTokenReply(up).error.status != 403 || !installed
    ensures var r := Refresh(s, installed, now, up);
            r.result == Err(Http(FirstTokenReply(up).error)) &&
            r.session.store == s.store && r.session.authorization == s.authorization &&
            r.session.sent == s.sent + [Sent(TokenCall(RefreshGrant(s.store.refreshToken)), s.authorization)]
  {
  }

  /** A refresh the token endpoint answers stores the new tokens. */
  lemma RefreshWritesTokens(s: Session, installed: bool, now: int, up: Upstream)
    requires s.store.refreshToken != "" && FirstTokenReply(up).Ok?
    ensures var r := Refresh(s, installed, now, up);
            var grant := Sent(TokenCall(RefreshGrant(s.store.refreshToken)), s.authorization);
            r.result == Ok(()) &&
            r.session == WriteTokens(s.(sent := s.sent + [grant]), FirstTokenReply(up).value, now) &&
            r.rest == up.(tokenReplies := up.tokenReplies[1..])
  {
  }

  /** The token endpoint is called through the same intercepted client: a 403
      from it starts a second refresh, with the same refresh token, before the
      first one has finished. */
  lemma ForbiddenTokenCallRefreshesAgain(s: Session, now: int, up: Upstream)
    requires s.store.refreshToken != ""
    requires FirstTokenReply(up).Err? && FirstTokenReply(up).error.status == 403
    ensures var r := Refresh(s, true, now, up);
            |s.sent| + 1 < |r.session.sent| &&
            r.session.sent[|s.sent|] == Sent(TokenCall(RefreshGrant(s.store.refreshToken)), s.authorization) &&
            r.session.sent[|s.sent| + 1] == r.session.sent[|s.sent|]
  {
    var grant := TokenCall(RefreshGrant(s.store.refreshToken));
    var up1 := Respond(grant, up).1;
    var s1 := s.(sent := s.sent + [Sent(grant, s.authorization)]);
    var inner := Refresh(s1, true, now, up1);
    var outer := Send(s, grant, s.authorization, true, now, up);
    assert inner.session.sent[|s1.sent|] == Sent(grant, s.authorization);
    if inner.result.Ok? {
      var replay := Send(inner.session, grant, s.authorization, false, now, inner.rest);
      assert replay.session.sent[|s1.sent|] == replay.session.sent[..|inner.session.sent|][|s1.sent|];
      assert replay.session.sent[|s.sent|] == replay.session.sent[..|inner.session.sent|][|s.sent|];
      assert inner.session.sent[|s.sent|] == inner.session.sent[..|s1.sent|][|s.sent|];
    } else {
      assert inner.session.sent[|s.sent|] == inner.session.sent[..|s1.sent|][|s.sent|];
    }
  }

  /** Everything the client does keeps the header in step with the store. */
  lemma {:induction false} SendKeepsHeaderInSync(s: Session, call: Call, header: Option<string>, armed: bool,
                                                 now: int, up: Upstream)
    requires HeaderInSync(s)
    decreases Size(up), 0
    ensures HeaderInSync(Send(s, call, header, armed, now, up).session)
  {
    var (reply, up1) := Respond(call, up);
    var s1 := s.(sent := s.sent + [Sent(call, header)]);
    if reply.Err? && reply.error.status == 403 && armed {
      RefreshKeepsHeaderInSync(s1, true, now, up1);
      var refreshed := Refresh(s1, true, now, up1);
      if refreshed.result.Ok? {
        SendKeepsHeaderInSync(refreshed.session, call, header, false, now, refreshed.rest);
      }
    }
  }

  lemma {:induction false} RefreshKeepsHeaderInSync(s: Session, installed: bool, now: int, up: Upstream)
    requires HeaderInSync(s)
    decreases Size(up), 1
    ensures HeaderInSync(Refresh(s, installed, now, up).session)
  {
    if s.store.refreshToken != "" {
      SendKeepsHeaderInSync(s, TokenCall(RefreshGrant(s.store.refreshToken)), s.authorization, installed, now, up);
    }
  }

  lemma RequestKeepsHeaderInSync(s: Session, verb: string, url: string, data: Value, now: int, up: Upstream)
    requires HeaderInSync(s)
    ensures HeaderInSync(Request(s, verb, url, data, now, up).session)
  {
    if NeedsRefresh(s.store, now) {
      RefreshKeepsHeaderInSync(s, true, now, up);
      var pre := Refresh(s, true, now, up);
      if pre.result.Ok? {
        SendKeepsHeaderInSync(pre.session, ApiCall(verb, url, data), pre.session.authorization, true, now, pre.rest);
      }
    } else {
      SendKeepsHeaderInSync(s, ApiCall(verb, url, data), s.authorization, true, now, up);
    }
  }

  lemma GetTokensKeepsHeaderInSync(s: Session, code: string, now: int, up: Upstream)
    requires HeaderInSync(s)
    ensures HeaderInSync(GetTokens(s, code, now, up).session)
  {
    SendKeepsHeaderInSync(s, TokenCall(AuthorizationCode(code)), s.authorization, true, now, up);
  }

  lemma StartupHeaderInSync(file: Option<TokenStore>, now: int, up: Upstream)
    ensures HeaderInSync(Startup(file, now, up).session)
  {
    RefreshKeepsHeaderInSync(ReadToken(file), false, now, up);
  }

  /** Token requests sent before an API request add no API request. */
  lemma AfterTokenPrefix(s: Session, p: Session, call: Call, now: int, up: Upstream)
    requires |s.sent| <= |p.sent| && p.sent[..|s.sent|] == s.sent
    requires TokenOnlyFrom(p.sent, |s.sent|)
    ensures var r := Send(p, call, p.authorization, true, now, up);
            ApiSent(r.session.sent[|s.sent|..]) == ApiSent(r.session.sent[|p.sent|..])
  {
    var r := Send(p, call, p.authorization, true, now, up);
    SentSplit(p.sent, r.session.sent, |s.sent|);
    TokenCallsOnly(p.sent, |s.sent|);
    ApiSentAppend(p.sent[|s.sent|..], r.session.sent[|p.sent|..]);
  }

  /** A request sends its API call at most twice, never with a different
      config, and not at all when the refresh before it fails. */
  lemma RequestSentAtMostTwice(s: Session, verb: string, url: string, data: Value, now: int, up: Upstream)
    ensures var r := Request(s, verb, url, data, now, up);
            var api := ApiSent(r.session.sent[|s.sent|..]);
            |api| <= 2 && forall i :: 0 <= i < |api| ==> api[i].call == ApiCall(verb, url, data)
  {
    var call := ApiCall(verb, url, data);
    if NeedsRefresh(s.store, now) {
      var pre := Refresh(s, true, now, up);
      RefreshTokenOnly(s, true, now, up);
      if pre.result.Ok? {
        AfterTokenPrefix(s, pre.session, call, now, pre.rest);
        ApiRequestReplayedAtMostOnce(pre.session, call, pre.session.authorization, true, now, pre.rest);
      } else {
        TokenCallsOnly(pre.session.sent, |s.sent|);
      }
    } else {
      ApiRequestReplayedAtMostOnce(s, call, s.authorization, true, now, up);
    }
  }

  /** An API request among what was sent shows up in the API part. */
  lemma {:induction false} ApiSentHolds(a: seq<Sent>, i: nat)
    requires i < |a| && a[i].call.ApiCall?
    ensures a[i] in ApiSent(a)
  {
    if i > 0 {
      assert a[1..][i - 1] == a[i];
      ApiSentHolds(a[1..], i - 1);
    }
  }

  /** A request's API call goes out exactly when the refresh before it, if
      any, succeeds; it is then the first API request sent, and a request
      that returned data was always sent. */
  lemma RequestSendsItsCall(s: Session, verb: string, url: string, data: Value, now: int, up: Upstream)
    ensures var r := Request(s, verb, url, data, now, up);
            var api := ApiSent(r.session.sent[|s.sent|..]);
            (api != [] <==> !NeedsRefresh(s.store, now) || Refresh(s, true, now, up).result.Ok?) &&
            (api != [] ==> api[0].call == ApiCall(verb, url, data)) &&
            (r.result.Ok? ==> api != [])
  {
    var r := Request(s, verb, url, data, now, up);
    RequestSentAtMostTwice(s, verb, url, data, now, up);
    var pre := if NeedsRefresh(s.store, now) then Refresh(s, true, now, up) else Run(s, Ok(()), up);
    if pre.result.Ok? {
      var sent := Send(pre.session, ApiCall(verb, url, data), pre.session.authorization, true, now, pre.rest);
      assert r.session == sent.session;
      var k := |pre.session.sent| - |s.sent|;
      assert r.session.sent[|s.sent|..][k] == r.session.sent[|pre.session.sent|];
      ApiSentHolds(r.session.sent[|s.sent|..], k);
    } else {
      RefreshTokenOnly(s, true, now, up);
      TokenCallsOnly(pre.session.sent, |s.sent|);
    }
  }

  /** With no token file at all the client starts from the default store and
      no header; the startup refresh fails before any call (there is no
      refresh token) and the failure is not thrown. */
  lemma StartupWithoutFile(now: int, up: Upstream)
    requires now > 0
    ensures Startup(None, now, up) == Run(Session(DefaultStore, None, []), Ok(()), up)
  {
  }

  /** The startup refresh runs before the interceptor is installed: a 403 from
      the token endpoint there is not retried. */
  lemma StartupRefreshIsNotIntercepted(file: Option<TokenStore>, now: int, up: Upstream)
    requires NeedsRefresh(ReadToken(file).store, now) && ReadToken(file).store.refreshToken != ""
    requires FirstTokenReply(up).Err?
    ensures var r := Startup(file, now, up);
            r.session.store == ReadToken(file).store &&
            r.session.sent == [Sent(TokenCall(RefreshGrant(ReadToken(file).store.refreshToken)), ReadToken(file).authorization)]
  {
    RefreshFailureKeepsTokens(ReadToken(file), false, now, up);
  }
}
