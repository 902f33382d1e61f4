/** The hh.ru API client as the object it is: the token store, the default
    Authorization header of the HTTP client and the token file are fields its
    methods overwrite. Each method is proved to leave the object in the state
    the matching function of HhTokens describes. */
module HhApi {
  import opened JsValue
  import opened HhTokens

  class HhApiService {
    var tokenStore: TokenStore
    /** The default `Authorization` header every new request config picks up. */
    var authorization: Option<string>
    /** The requests sent so far, oldest first. */
    var sent: seq<Sent>
    /** The replies hh.ru will give to the next calls. */
    var remote: Upstream
    /** What the token file holds. */
    ghost var tokenFile: Option<TokenStore>

    function State(): Session
      reads this
    {
      Session(tokenStore, authorization, sent)
    }

    /** The file always holds the store, and the header follows the store. */
    ghost predicate Valid()
      reads this
    {
      tokenFile == Some(tokenStore) && HeaderInSync(State())
    }

    /** readToken, creating the file with the default store when there is none,
        then the startup check; a failed startup refresh is swallowed. */
    constructor(file: Option<TokenStore>, now: int, hh: Upstream)
      ensures Valid()
      ensures State() == Startup(file, now, hh).session && remote == Startup(file, now, hh).rest
    {
      tokenStore := if file.Some? then file.value else DefaultStore;
      tokenFile := Some(tokenStore);
      authorization := None;
      sent := [];
      remote := hh;
      new;
      if tokenStore.accessToken != "" {
        authorization := Some("Bearer " + tokenStore.accessToken);
      }
      assert State() == ReadToken(file);
      if NeedsRefresh(tokenStore, now) {
        var _ := RefreshToken(false, now);
      }
    }

    /** writeTokens: the three fields together, the header, then the file. */
    method WriteTokens(t: TokenResponse, now: int)
      modifies this
      ensures Valid()
      ensures State() == HhTokens.WriteTokens(old(State()), t, now) && remote == old(remote)
    {
      tokenStore := TokenStore(t.accessToken, t.refreshToken, t.expiresInSeconds * 1000 + now);
      authorization := Some("Bearer " + t.accessToken);
      tokenFile := Some(tokenStore);
    }

    /** One call through the HTTP client and its response interceptor. */
    method Send(call: Call, header: Option<string>, armed: bool, now: int) returns (result: Result<Answer, ApiError>)
      requires Valid()
      modifies this
      decreases Size(remote), 0
      ensures Valid()
      ensures var r := HhTokens.Send(old(State()), call, header, armed, now, old(remote));
              State() == r.session && result == r.result && remote == r.rest
    {
      var reply := Respond(call, remote);
      remote := reply.1;
      sent := sent + [Sent(call, header)];
      match reply.0
      case Ok(a) =>
        result := Ok(a);
      case Err(e) =>
        if e.status == 403 && armed {
          // The interceptor sets `_retry` on the config, refreshes and replays.
          var refreshed := RefreshToken(true, now);
          if refreshed.Err? {
            result := Err(refreshed.error);
          } else {
            result := Send(call, header, false, now);
          }
        } else {
          result := Err(Http(e));
        }
    }

    /** refreshToken. */
    method RefreshToken(installed: bool, now: int) returns (result: Result<(), ApiError>)
      requires Valid()
      modifies this
      decreases Size(remote), 1
      ensures Valid()
      ensures var r := HhTokens.Refresh(old(State()), installed, now, old(remote));
              State() == r.session && result == r.result && remote == r.rest
    {
      if tokenStore.refreshToken == "" {
        return Err(Plain(AuthorizationRequired));
      }
      var reply := Send(TokenCall(RefreshGrant(tokenStore.refreshToken)), authorization, installed, now);
      match reply
      case Err(e) =>
        result := Err(e);
      case Ok(a) =>
        WriteTokens(a.tokens, now);
        result := Ok(());
    }

    /** getTokens: exchange an authorization code. */
    method GetTokens(code: string, now: int) returns (result: Result<(), ApiError>)
      requires Valid()
      modifies this
      ensures Valid()
      ensures var r := HhTokens.GetTokens(old(State()), code, now, old(remote));
              State() == r.session && result == r.result && remote == r.rest
    {
      var reply := Send(TokenCall(AuthorizationCode(code)), authorization, true, now);
      match reply
      case Err(e) =>
        result := Err(e);
      case Ok(a) =>
        WriteTokens(a.tokens, now);
        result := Ok(());
    }

    /** request: refresh first when the token is past its expiry. */
    method Request(verb: string, url: string, data: Value, now: int) returns (result: Result<Value, ApiError>)
      requires Valid()
      modifies this
      ensures Valid()
      ensures var r := HhTokens.Request(old(State()), verb, url, data, now, old(remote));
              State() == r.session && result == r.result && remote == r.rest
    {
      if NeedsRefresh(tokenStore, now) {
        var refreshed := RefreshToken(true, now);
        if refreshed.Err? {
          return Err(refreshed.error);
        }
      }
      var reply := Send(ApiCall(verb, url, data), authorization, true, now);
      result := if reply.Ok? then Ok(reply.value.data) else Err(reply.error);
    }
  }
}
