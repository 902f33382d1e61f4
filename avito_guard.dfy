/** The secret guard of the Avito webhook route. It builds a fresh service,
    which reads the persisted account table, looks the route's clientId up in it
    and compares the `x-secret` header with the stored secret. */
module AvitoGuard {
  import opened JsValue
  import opened AvitoAccounts

  /** The table a freshly built service starts from: the auth file, or an empty
      table when there is no file. */
  function PersistedTable(file: Option<seq<Account>>): seq<Account> {
    if file.Some? then file.value else []
  }

  /** canActivate, for the route parameter `clientId` and the `x-secret` header
      (None when the request has none). */
  function CanActivate(file: Option<seq<Account>>, clientId: string, secret: Option<string>): (r: Result<bool, Exception>)
    ensures r.Err? <==> !Known(PersistedTable(file), clientId)
    ensures r.Err? ==> r.error == NotFound(NotFoundMessage)
    ensures r.Ok? ==> (r.value <==> exists i :: FirstWithId(PersistedTable(file), clientId, i) &&
                                                secret == Some(PersistedTable(file)[i].clientSecret))
  {
    match GetAccount(PersistedTable(file), clientId)
    case None => Err(NotFound(NotFoundMessage))
    case Some(account) => Ok(secret == Some(account.clientSecret))
  }

  /** A request without the header is never let through. */
  lemma AbsentSecretNeverMatches(file: Option<seq<Account>>, clientId: string)
    ensures CanActivate(file, clientId, None) != Ok(true)
  {
  }

  /** Lookup depends on the clientIds alone. */
  lemma {:induction false} FindSameCredentials(t1: seq<Account>, t2: seq<Account>, clientId: string)
    requires Credentials(t1) == Credentials(t2)
    ensures FindAccount(t1, clientId) == FindAccount(t2, clientId)
  {
    if t1 != [] {
      assert Credentials(t1)[0] == Credentials(t2)[0];
      assert Credentials(t1[1..]) == Credentials(t1)[1..];
      assert Credentials(t2[1..]) == Credentials(t2)[1..];
      FindSameCredentials(t1[1..], t2[1..], clientId);
    }
  }

  /** The verdict depends on nothing but the (clientId, clientSecret) pairs of
      the table and the two request fields. */
  lemma GuardSeesOnlyCredentials(t1: seq<Account>, t2: seq<Account>, clientId: string, secret: Option<string>)
    requires Credentials(t1) == Credentials(t2)
    ensures CanActivate(Some(t1), clientId, secret) == CanActivate(Some(t2), clientId, secret)
  {
    FindSameCredentials(t1, t2, clientId);
    var i := FindAccount(t1, clientId);
    if i.Some? {
      assert Credentials(t1)[i.value] == Credentials(t2)[i.value];
    }
  }

  /** Renewing a token never changes what the guard decides. */
  lemma GuardIgnoresTokens(table: seq<Account>, clientId: string, now: int, reply: Result<TokenGrant, HttpError>,
                           routeId: string, secret: Option<string>)
    requires AccountTokens(table, clientId, now, reply).Ok?
    ensures CanActivate(Some(AccountTokens(table, clientId, now, reply).value.0), routeId, secret) ==
            CanActivate(Some(table), routeId, secret)
  {
    TokensKeepCredentials(table, clientId, now, reply);
    GuardSeesOnlyCredentials(AccountTokens(table, clientId, now, reply).value.0, table, routeId, secret);
  }
}
