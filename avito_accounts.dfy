/** The account table of the Avito service: one entry per Avito client, found by
    its clientId, plus the rule that decides when an account's access token is
    renewed. The table is a sequence; the service object that owns it mutates it
    in place (avito_service.dfy). */
module AvitoAccounts {
  import opened JsValue

  /** The exceptions the Avito service raises, as NestJS writes their message. */
  datatype Exception =
    | BadRequest(message: string)
    | NotFound(message: string)
    | Http(cause: HttpError)
    | TypeError(message: string)
    | RedisError(message: string)   // a rejected Redis call

  /** The message of a `new NotFoundException()` built without one. */
  const NotFoundMessage: string := "Not Found"

  /** `error.message`. */
  function Message(e: Exception): string {
    match e
    case BadRequest(m) => m
    case NotFound(m) => m
    case Http(cause) => cause.message
    case TypeError(m) => m
    case RedisError(m) => m
  }

  /** One Avito client: its credentials and the last token the service obtained. */
  datatype Account = Account(clientId: string, clientSecret: string, accessToken: string, expiresIn: int)

  /** `new Account()` with the two credentials set: the token fields keep their
      defaults, an empty token and an expiry of 0. */
  function NewAccount(clientId: string, clientSecret: string): Account {
    Account(clientId, clientSecret, "", 0)
  }

  predicate Known(table: seq<Account>, clientId: string) {
    exists i :: 0 <= i < |table| && table[i].clientId == clientId
  }

  /** Index `i` holds the first account with this clientId. */
  predicate FirstWithId(table: seq<Account>, clientId: string, i: int) {
    0 <= i < |table| && table[i].clientId == clientId &&
    forall j :: 0 <= j < i ==> table[j].clientId != clientId
  }

  predicate UniqueIds(table: seq<Account>) {
    forall i, j :: 0 <= i < j < |table| ==> table[i].clientId != table[j].clientId
  }

  /** `authStore.find(acc => acc.clientId === clientId)`, as an index. */
  function FindAccount(table: seq<Account>, clientId: string): (r: Option<nat>)
    ensures r.Some? ==> FirstWithId(table, clientId, r.value)
    ensures r.None? <==> !Known(table, clientId)
  {
    if table == [] then None
    else if table[0].clientId == clientId then Some(0)
    else
      match FindAccount(table[1..], clientId)
      case None =>
        assert forall i :: 1 <= i < |table| ==> table[i] == table[1..][i - 1];
        None
      case Some(i) => Some(i + 1)
  }

  /** getAccount: the first account with this clientId, if there is one. */
  function GetAccount(table: seq<Account>, clientId: string): (r: Option<Account>)
    ensures r.Some? <==> Known(table, clientId)
    ensures r.Some? ==> r.value.clientId == clientId
    ensures forall i :: FirstWithId(table, clientId, i) ==> r == Some(table[i])
  {
    var i := FindAccount(table, clientId);
    if i.Some? then
      FirstIsUnique(table, clientId, i.value);
      Some(table[i.value])
    else None
  }

  lemma FirstIsUnique(table: seq<Account>, clientId: string, i: int)
    requires FirstWithId(table, clientId, i)
    ensures forall j :: FirstWithId(table, clientId, j) ==> j == i
  {
  }

  /** addAccount: a clientId already in the table is refused with BadRequest;
      otherwise exactly one fresh account is appended and every existing entry
      stays where it was. */
  function AddAccount(table: seq<Account>, clientId: string, clientSecret: string): (r: Result<seq<Account>, Exception>)
    ensures r.Err? <==> Known(table, clientId)
    ensures r.Err? ==> r.error == BadRequest("Account already exists")
    ensures r.Ok? ==> |r.value| == |table| + 1 && r.value[..|table|] == table
    ensures r.Ok? ==> r.value[|table|] == Account(clientId, clientSecret, "", 0)
  {
    if GetAccount(table, clientId).Some? then Err(BadRequest("Account already exists"))
    else Ok(table + [NewAccount(clientId, clientSecret)])
  }

  /** deleteAccount: an unknown clientId is refused with NotFound; otherwise the
      first account with that id is spliced out and the others keep their order. */
  function DeleteAccount(table: seq<Account>, clientId: string): (r: Result<seq<Account>, Exception>)
    ensures r.Err? <==> !Known(table, clientId)
    ensures r.Err? ==> r.error == NotFound(NotFoundMessage)
    ensures r.Ok? ==> exists i :: FirstWithId(table, clientId, i) && r.value == table[..i] + table[i + 1..]
  {
    match FindAccount(table, clientId)
    case None => Err(NotFound(NotFoundMessage))
    case Some(i) => Ok(table[..i] + table[i + 1..])
  }

  /** Adding keeps the clientIds unique. */
  lemma AddKeepsIdsUnique(table: seq<Account>, clientId: string, clientSecret: string)
    requires UniqueIds(table)
    requires AddAccount(table, clientId, clientSecret).Ok?
    ensures UniqueIds(AddAccount(table, clientId, clientSecret).value)
  {
    var r := AddAccount(table, clientId, clientSecret).value;
    forall i, j | 0 <= i < j < |r|
      ensures r[i].clientId != r[j].clientId
    {
      if j == |table| {
        assert r[i] == table[i];
      } else {
        assert r[i] == table[i] && r[j] == table[j];
      }
    }
  }

  /** Deleting keeps the clientIds unique. */
  lemma DeleteKeepsIdsUnique(table: seq<Account>, clientId: string)
    requires UniqueIds(table)
    requires DeleteAccount(table, clientId).Ok?
    ensures UniqueIds(DeleteAccount(table, clientId).value)
  {
    var r := DeleteAccount(table, clientId).value;
    var k :| FirstWithId(table, clientId, k) && r == table[..k] + table[k + 1..];
    forall i, j | 0 <= i < j < |r|
      ensures r[i].clientId != r[j].clientId
    {
      var i' := if i < k then i else i + 1;
      var j' := if j < k then j else j + 1;
      assert r[i] == table[i'] && r[j] == table[j'];
    }
  }

  /** Where each entry of a table ends up once index `k` is spliced out. */
  lemma SpliceIndex(table: seq<Account>, k: int)
    requires 0 <= k < |table|
    ensures |table[..k] + table[k + 1..]| == |table| - 1
    ensures forall i :: 0 <= i < k ==> (table[..k] + table[k + 1..])[i] == table[i]
    ensures forall i :: k < i < |table| ==> (table[..k] + table[k + 1..])[i - 1] == table[i]
  {
  }

  /** In a table with unique ids, deleting an account removes exactly that one:
      its id is gone, the table is one shorter, and every other id still finds
      the same account. */
  lemma DeleteRemovesExactlyThatAccount(table: seq<Account>, clientId: string, other: string)
    requires UniqueIds(table) && Known(table, clientId)
    requires other != clientId
    ensures DeleteAccount(table, clientId).Ok?
    ensures !Known(DeleteAccount(table, clientId).value, clientId)
    ensures |DeleteAccount(table, clientId).value| == |table| - 1
    ensures GetAccount(DeleteAccount(table, clientId).value, other) == GetAccount(table, other)
  {
    var r := DeleteAccount(table, clientId).value;
    var k :| FirstWithId(table, clientId, k) && r == table[..k] + table[k + 1..];
    SpliceIndex(table, k);
    DeletedIdGone(table, clientId, k);
    OtherIdsKept(table, clientId, k, other);
  }

  lemma DeletedIdGone(table: seq<Account>, clientId: string, k: int)
    requires UniqueIds(table) && FirstWithId(table, clientId, k)
    ensures !Known(table[..k] + table[k + 1..], clientId)
  {
    var r := table[..k] + table[k + 1..];
    SpliceIndex(table, k);
    forall i | 0 <= i < |r|
      ensures r[i].clientId != clientId
    {
      if i >= k {
        assert r[i] == table[i + 1];
      }
    }
  }

  lemma OtherIdsKept(table: seq<Account>, clientId: string, k: int, other: string)
    requires FirstWithId(table, clientId, k) && other != clientId
    ensures GetAccount(table[..k] + table[k + 1..], other) == GetAccount(table, other)
  {
    var r := table[..k] + table[k + 1..];
    SpliceIndex(table, k);
    var g := FindAccount(table, other);
    if g.Some? {
      var m := g.value;
      var m' := if m < k then m else m - 1;
      assert r[m'] == table[m];
      forall j | 0 <= j < m'
        ensures r[j].clientId != other
      {
        if j >= k {
          assert r[j] == table[j + 1];
        }
      }
      assert FirstWithId(r, other, m');
    } else {
      forall j | 0 <= j < |r|
        ensures r[j].clientId != other
      {
        if j >= k {
          assert r[j] == table[j + 1];
        }
      }
    }
  }

  /** Deleting an account just added gives the table back. */
  lemma AddThenDelete(table: seq<Account>, clientId: string, clientSecret: string)
    requires AddAccount(table, clientId, clientSecret).Ok?
    ensures DeleteAccount(AddAccount(table, clientId, clientSecret).value, clientId) == Ok(table)
  {
    var r := AddAccount(table, clientId, clientSecret).value;
    assert FirstWithId(r, clientId, |table|);
    FirstIsUnique(r, clientId, |table|);
    assert r[..|table|] + r[|table| + 1..] == table;
  }

  /** After adding, the new id finds the fresh account and every other id finds
      what it found before. */
  lemma AddThenGet(table: seq<Account>, clientId: string, clientSecret: string, other: string)
    requires AddAccount(table, clientId, clientSecret).Ok?
    ensures GetAccount(AddAccount(table, clientId, clientSecret).value, clientId) == Some(NewAccount(clientId, clientSecret))
    ensures other != clientId ==>
              GetAccount(AddAccount(table, clientId, clientSecret).value, other) == GetAccount(table, other)
  {
    var r := AddAccount(table, clientId, clientSecret).value;
    assert FirstWithId(r, clientId, |table|);
    if other != clientId {
      var g := FindAccount(table, other);
      if g.Some? {
        assert FirstWithId(r, other, g.value);
      } else {
        assert forall j :: 0 <= j < |r| ==> r[j].clientId != other by {
          forall j | 0 <= j < |r| ensures r[j].clientId != other {
            if j < |table| { assert r[j] == table[j]; }
          }
        }
      }
    }
  }

  /** getAccountTokens renews the token when it is empty or its expiry lies
      strictly before `now`. */
  predicate NeedsRefresh(account: Account, now: int) {
    account.accessToken == "" || account.expiresIn < now
  }

  /** The two fields of a successful `POST /token` reply. */
  datatype TokenGrant = TokenGrant(accessToken: string, expiresInSeconds: int)

  /** requestTokens: a failed token call leaves the account as it was and is
      rethrown; a granted one replaces the token and stores `expires_in * 1000`,
      a duration in milliseconds, not a deadline. */
  function RequestTokens(account: Account, reply: Result<TokenGrant, HttpError>): (r: Result<Account, Exception>)
    ensures reply.Err? ==> r == Err(Http(reply.error))
    ensures reply.Ok? ==> r.Ok? && r.value.clientId == account.clientId && r.value.clientSecret == account.clientSecret
    ensures reply.Ok? ==> r.value.accessToken == reply.value.accessToken && r.value.expiresIn == reply.value.expiresInSeconds * 1000
  {
    match reply
    case Err(e) => Err(Http(e))
    case Ok(grant) => Ok(account.(accessToken := grant.accessToken, expiresIn := grant.expiresInSeconds * 1000))
  }

  /** getAccountTokens over the table: the new table and the account it returns.
      An unknown id is NotFound; a token still valid at `now` is returned as is
      with no token call; otherwise the token is requested and the account is
      updated where it stands, or the table is left alone when the call fails. */
  function AccountTokens(table: seq<Account>, clientId: string, now: int, reply: Result<TokenGrant, HttpError>):
    (r: Result<(seq<Account>, Account), Exception>)
    ensures !Known(table, clientId) ==> r == Err(NotFound(NotFoundMessage))
    ensures forall i :: FirstWithId(table, clientId, i) && !NeedsRefresh(table[i], now) ==> r == Ok((table, table[i]))
    ensures forall i :: FirstWithId(table, clientId, i) && NeedsRefresh(table[i], now) && reply.Err? ==>
              r == Err(Http(reply.error))
    ensures forall i :: FirstWithId(table, clientId, i) && NeedsRefresh(table[i], now) && reply.Ok? ==>
              r.Ok? && r.value.1 == RequestTokens(table[i], reply).value && r.value.0 == table[i := r.value.1]
  {
    match FindAccount(table, clientId)
    case None => Err(NotFound(NotFoundMessage))
    case Some(i) =>
      FirstIsUnique(table, clientId, i);
      if NeedsRefresh(table[i], now) then
        match RequestTokens(table[i], reply)
        case Err(e) => Err(e)
        case Ok(account) => Ok((table[i := account], account))
      else Ok((table, table[i]))
  }

  /** The (clientId, clientSecret) pairs of a table, in order. */
  function Credentials(table: seq<Account>): (r: seq<(string, string)>)
    ensures |r| == |table|
    ensures forall i :: 0 <= i < |table| ==> r[i] == (table[i].clientId, table[i].clientSecret)
  {
    if table == [] then [] else [(table[0].clientId, table[0].clientSecret)] + Credentials(table[1..])
  }

  /** Fetching tokens never changes who is registered or with which secret. */
  lemma TokensKeepCredentials(table: seq<Account>, clientId: string, now: int, reply: Result<TokenGrant, HttpError>)
    requires AccountTokens(table, clientId, now, reply).Ok?
    ensures Credentials(AccountTokens(table, clientId, now, reply).value.0) == Credentials(table)
    ensures AccountTokens(table, clientId, now, reply).value.1 == AccountTokens(table, clientId, now, reply).value.0[FindAccount(table, clientId).value]
  {
    var i := FindAccount(table, clientId).value;
    if NeedsRefresh(table[i], now) {
      CredentialsUpdate(table, i, RequestTokens(table[i], reply).value);
    }
  }

  /** Replacing an account by one with the same id and secret keeps the
      credentials. */
  lemma CredentialsUpdate(table: seq<Account>, i: nat, a: Account)
    requires i < |table| && a.clientId == table[i].clientId && a.clientSecret == table[i].clientSecret
    ensures Credentials(table[i := a]) == Credentials(table)
  {
    assert forall j :: 0 <= j < |table| ==> Credentials(table[i := a])[j] == Credentials(table)[j];
  }

  /** Because the stored expiry is a duration, any renewed token whose
      `expires_in * 1000` lies before a later clock reading is renewed again at
      that reading: with a real clock every call renews. */
  lemma RenewedTokenIsStale(table: seq<Account>, clientId: string, now: int, grant: TokenGrant, later: int)
    requires Known(table, clientId) && NeedsRefresh(GetAccount(table, clientId).value, now)
    requires grant.expiresInSeconds * 1000 < later
    ensures AccountTokens(table, clientId, now, Ok(grant)).Ok?
    ensures NeedsRefresh(AccountTokens(table, clientId, now, Ok(grant)).value.1, later)
    ensures GetAccount(AccountTokens(table, clientId, now, Ok(grant)).value.0, clientId) ==
            Some(AccountTokens(table, clientId, now, Ok(grant)).value.1)
  {
    var i := FindAccount(table, clientId).value;
    var r := AccountTokens(table, clientId, now, Ok(grant)).value;
    assert FirstWithId(r.0, clientId, i);
  }
}
