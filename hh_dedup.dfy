/** The pure rules of the hh.ru queue worker: the two dedup keys, the duplicate
    status with its reason, the pipelined marks with their expiries, and the
    one-second rate limit. */
module HhDedup {
  import opened JsValue
  import opened RedisStore

  /** The fields of a queued negotiation the worker reads. */
  datatype Negotiation = Negotiation(id: string, userId: string, vacancyId: string, resumeId: string)

  function NegotiationKey(id: string): string {
    "negotiation:" + id
  }

  function ApplicationKey(userId: string, vacancyId: string, resumeId: string): string {
    "application:" + userId + ":" + vacancyId + ":" + resumeId
  }

  /** The two keys can never be the same string. */
  lemma KeysNeverCollide(id: string, userId: string, vacancyId: string, resumeId: string)
    ensures NegotiationKey(id) != ApplicationKey(userId, vacancyId, resumeId)
  {
    assert NegotiationKey(id)[0] == 'n';
    assert ApplicationKey(userId, vacancyId, resumeId)[0] == 'a';
  }

  lemma NegotiationKeyInjective(a: string, b: string)
    requires NegotiationKey(a) == NegotiationKey(b)
    ensures a == b
  {
    assert a == NegotiationKey(a)[12..];
    assert b == NegotiationKey(b)[12..];
  }

  /** The text before the first ':' and the text after it. */
  function BeforeColon(s: string): string {
    if s == [] || s[0] == ':' then [] else [s[0]] + BeforeColon(s[1..])
  }

  function AfterColon(s: string): string {
    if s == [] then [] else if s[0] == ':' then s[1..] else AfterColon(s[1..])
  }

  lemma {:induction false} SplitAtColon(a: string, b: string)
    requires ':' !in a
    ensures BeforeColon(a + ":" + b) == a && AfterColon(a + ":" + b) == b
  {
    var s := a + ":" + b;
    if a == [] {
      assert s == ":" + b;
    } else {
      assert s[0] == a[0] && s[1..] == a[1..] + ":" + b;
      SplitAtColon(a[1..], b);
    }
  }

  /** With colon-free user and vacancy ids, the application key tells
      applications apart. */
  lemma ApplicationKeyInjective(u1: string, v1: string, r1: string, u2: string, v2: string, r2: string)
    requires ':' !in u1 && ':' !in v1 && ':' !in u2 && ':' !in v2
    requires ApplicationKey(u1, v1, r1) == ApplicationKey(u2, v2, r2)
    ensures u1 == u2 && v1 == v2 && r1 == r2
  {
    assert ApplicationKey(u1, v1, r1)[12..] == u1 + ":" + (v1 + ":" + r1);
    assert ApplicationKey(u2, v2, r2)[12..] == u2 + ":" + (v2 + ":" + r2);
    SplitAtColon(u1, v1 + ":" + r1);
    SplitAtColon(u2, v2 + ":" + r2);
    SplitAtColon(v1, r1);
    SplitAtColon(v2, r2);
  }

  /** Ids with colons can share a key: the key is not injective in general. */
  lemma ApplicationKeyCanCollide()
    ensures ApplicationKey("1:2", "3", "4") == ApplicationKey("1", "2:3", "4")
  {
  }

  const NegotiationProcessed := "Negotiation ID already processed"
  const AlreadyApplied := "User already applied to this vacancy with this resume"

  datatype DuplicateStatus = DuplicateStatus(isDuplicate: bool, reason: Option<string>)

  /** The status for a pair of keys: the negotiation reason wins over the
      application one. */
  function KeyStatus(store: Store, negotiationKey: string, applicationKey: string): (r: DuplicateStatus)
    ensures r.isDuplicate <==> Exists(store, negotiationKey) || Exists(store, applicationKey)
    ensures r.isDuplicate <==> r.reason.Some?
    ensures Exists(store, negotiationKey) ==> r.reason == Some(NegotiationProcessed)
    ensures !Exists(store, negotiationKey) && Exists(store, applicationKey) ==> r.reason == Some(AlreadyApplied)
  {
    if Exists(store, negotiationKey) then DuplicateStatus(true, Some(NegotiationProcessed))
    else if Exists(store, applicationKey) then DuplicateStatus(true, Some(AlreadyApplied))
    else DuplicateStatus(false, None)
  }

  /** checkDuplicateStatus for a negotiation. */
  function CheckDuplicateStatus(store: Store, n: Negotiation): (r: DuplicateStatus)
    ensures r.isDuplicate <==> NegotiationKey(n.id) in store || ApplicationKey(n.userId, n.vacancyId, n.resumeId) in store
    ensures NegotiationKey(n.id) in store ==> r.reason == Some(NegotiationProcessed)
    ensures NegotiationKey(n.id) !in store && ApplicationKey(n.userId, n.vacancyId, n.resumeId) in store ==>
              r.reason == Some(AlreadyApplied)
    ensures !r.isDuplicate ==> r.reason.None?
  {
    KeyStatus(store, NegotiationKey(n.id), ApplicationKey(n.userId, n.vacancyId, n.resumeId))
  }

  const ProcessedValue := "processed"
  /** 24 hours and 7 days, in seconds. */
  const NegotiationTtl: nat := 24 * 60 * 60
  const ApplicationTtl: nat := 7 * 24 * 60 * 60

  /** One `SET key value EX ttl` queued on a pipeline. */
  datatype SetCommand = SetCommand(key: string, value: string, ttl: nat)

  /** The pipeline updateNegotiationStatus queues, in order. */
  function MarkCommands(negotiationKey: string, applicationKey: string): seq<SetCommand> {
    [SetCommand(negotiationKey, ProcessedValue, NegotiationTtl), SetCommand(applicationKey, ProcessedValue, ApplicationTtl)]
  }

  /** The store once `exec` has run the queued commands in order. */
  function ApplyPipeline(store: Store, commands: seq<SetCommand>): Store
    decreases |commands|
  {
    if commands == [] then store
    else ApplyPipeline(Set(store, commands[0].key, commands[0].value, Some(commands[0].ttl)), commands[1..])
  }

  /** The store after both marks. */
  function MarkedKeys(store: Store, negotiationKey: string, applicationKey: string): (r: Store)
    requires negotiationKey != applicationKey
    ensures r.Keys == store.Keys + {negotiationKey, applicationKey}
    ensures r[negotiationKey] == Stored(ProcessedValue, Some(86400))
    ensures r[applicationKey] == Stored(ProcessedValue, Some(604800))
    ensures forall k :: k in store && k != negotiationKey && k != applicationKey ==> r[k] == store[k]
  {
    var commands := MarkCommands(negotiationKey, applicationKey);
    var first := Set(store, negotiationKey, ProcessedValue, Some(NegotiationTtl));
    var both := Set(first, applicationKey, ProcessedValue, Some(ApplicationTtl));
    assert ApplyPipeline(store, commands) == ApplyPipeline(first, commands[1..]);
    assert ApplyPipeline(first, commands[1..]) == ApplyPipeline(both, []) by {
      assert commands[1..][0] == commands[1];
      assert commands[1..][1..] == [];
    }
    ApplyPipeline(store, commands)
  }

  /** The store after marking negotiation `n` processed. */
  function MarkProcessed(store: Store, n: Negotiation): (r: Store)
    ensures r.Keys == store.Keys + {NegotiationKey(n.id), ApplicationKey(n.userId, n.vacancyId, n.resumeId)}
    ensures r[NegotiationKey(n.id)] == Stored(ProcessedValue, Some(86400))
    ensures r[ApplicationKey(n.userId, n.vacancyId, n.resumeId)] == Stored(ProcessedValue, Some(604800))
    ensures forall k :: k in store && k != NegotiationKey(n.id) && k != ApplicationKey(n.userId, n.vacancyId, n.resumeId) ==>
              r[k] == store[k]
  {
    KeysNeverCollide(n.id, n.userId, n.vacancyId, n.resumeId);
    MarkedKeys(store, NegotiationKey(n.id), ApplicationKey(n.userId, n.vacancyId, n.resumeId))
  }

  /** A marked negotiation is a duplicate from then on, for the negotiation
      reason. */
  lemma MarkedIsDuplicate(store: Store, n: Negotiation)
    ensures CheckDuplicateStatus(MarkProcessed(store, n), n) == DuplicateStatus(true, Some(NegotiationProcessed))
  {
  }

  /** A new negotiation for an application already marked is a duplicate for
      the application reason. */
  lemma SameApplicationIsDuplicate(store: Store, n: Negotiation, m: Negotiation)
    requires m.userId == n.userId && m.vacancyId == n.vacancyId && m.resumeId == n.resumeId
    requires NegotiationKey(m.id) !in MarkProcessed(store, n)
    ensures CheckDuplicateStatus(MarkProcessed(store, n), m) == DuplicateStatus(true, Some(AlreadyApplied))
  {
  }

  /** Marking one negotiation changes the status of no other negotiation
      except through a shared key. */
  lemma MarkAffectsOnlyItsKeys(store: Store, n: Negotiation, m: Negotiation)
    requires NegotiationKey(m.id) != NegotiationKey(n.id)
    requires ApplicationKey(m.userId, m.vacancyId, m.resumeId) != ApplicationKey(n.userId, n.vacancyId, n.resumeId)
    ensures CheckDuplicateStatus(MarkProcessed(store, n), m) == CheckDuplicateStatus(store, m)
  {
    KeysNeverCollide(n.id, m.userId, m.vacancyId, m.resumeId);
    KeysNeverCollide(m.id, n.userId, n.vacancyId, n.resumeId);
  }

  const MinInterval := 1000

  /** rateLimit: the wait before a webhook post, in ms. */
  function RateLimitDelay(now: int, last: int): (d: int)
    ensures d >= 0
    ensures d > 0 <==> last != 0 && now - last < MinInterval
    ensures d > 0 ==> now + d == last + MinInterval
  {
    var since := now - last;
    if since < MinInterval && last != 0 then MinInterval - since else 0
  }

  /** The very first post never waits. */
  lemma FirstPostNeverWaits(now: int)
    ensures RateLimitDelay(now, 0) == 0
  {
  }

  /** After any earlier post, the next one goes out no sooner than a second
      after it, whatever the clock says. */
  lemma PostsAtLeastASecondApart(now: int, last: int)
    requires last != 0
    ensures now + RateLimitDelay(now, last) >= last + MinInterval
    ensures now >= last ==> RateLimitDelay(now, last) <= MinInterval
  {
  }
}
