/** The hh.ru queue worker: for each queued negotiation it fetches the vacancy
    and the resume, skips duplicates, waits out the rate limit, posts to the
    webhook chosen by the vacancy's manager and then marks the negotiation
    processed. Every failure is rethrown, which makes the queue retry the job.
    The two fetches are `request` calls of the API client (HhTokens); here only
    their outcome is seen. */
module HhQueueProcessor {
  import opened JsValue
  import opened RedisStore
  import opened HhTokens
  import opened HhDedup

  /** What `process` throws: a failed fetch, a failed post or a failed exec. */
  datatype Failure = Api(apiError: ApiError) | Webhook(httpError: HttpError) | Redis(message: string)

  /** What the worker does to the outside world, in order. */
  datatype Effect =
    | Fetch(url: string)
    | Sleep(ms: int)
    | Post(at: int, baseUrl: Value, body: Value)
    | Exec(commands: seq<SetCommand>)

  /** The outcomes of the calls one job makes: the two fetches (their `data`),
      the two EXISTS of the duplicate check, awaited together (Some(message)
      when either is rejected), the post and the pipeline exec (Some(message)
      when it fails). */
  datatype JobReplies = JobReplies(vacancy: Result<Value, ApiError>, resume: Result<Value, ApiError>,
                                   existsCheck: Option<string>, post: Result<(), HttpError>, exec: Option<string>)

  /** The clock as the worker reads it: at the rate-limit check, and once the
      post has returned. */
  datatype JobClock = JobClock(now: int, afterPost: int)

  datatype Worker = Worker(redis: Store, last: int, effects: seq<Effect>)

  datatype Step = Step(worker: Worker, result: Result<(), Failure>)

  /** The property name `WEBHOOK_SETTINGS[id?.toString()]` reads: a missing or
      null id reads the property "undefined". */
  function RouteKey(managerId: Value): string {
    if managerId.Undefined? || managerId.Null? then "undefined" else ToJsString(managerId)
  }

  /** The per-request `baseURL`: the routing table's entry for the vacancy's
      manager. */
  function Target(settings: Value, vacancy: Value): (r: Value)
    ensures var id := Prop(Prop(vacancy, "manager"), "id");
            (id.Str? ==> r == Prop(settings, id.s)) &&
            (id.Num? ==> r == Prop(settings, IntToString(id.n))) &&
            (id.Undefined? ==> r == Prop(settings, "undefined"))
  {
    Prop(settings, RouteKey(Prop(Prop(vacancy, "manager"), "id")))
  }

  /** The webhook body. */
  function Body(n: Negotiation, vacancy: Value, resume: Value): Value {
    Obj(map["negotiationId" := Str(n.id), "vacancy" := vacancy, "resume" := resume])
  }

  /** When the post goes out: after the rate-limit wait. */
  function PostTime(w: Worker, clock: JobClock): int {
    clock.now + RateLimitDelay(clock.now, w.last)
  }

  /** The wait, if any, as an effect. */
  function Waited(w: Worker, clock: JobClock): seq<Effect> {
    var d := RateLimitDelay(clock.now, w.last);
    if d > 0 then [Sleep(d)] else []
  }

  /** Rate limit, post, then mark with the two keys (taken as parameters). */
  function Deliver(w: Worker, negotiationKey: string, applicationKey: string, target: Value, body: Value,
                   clock: JobClock, post: Result<(), HttpError>, exec: Option<string>): (r: Step)
    ensures post.Err? ==>
              r == Step(w.(effects := w.effects + Waited(w, clock) + [Post(PostTime(w, clock), target, body)]),
                        Err(Webhook(post.error)))
    ensures post.Ok? ==>
              r.worker.last == clock.afterPost &&
              r.worker.effects == w.effects + Waited(w, clock) + [Post(PostTime(w, clock), target, body),
                                                                  Exec(MarkCommands(negotiationKey, applicationKey))]
    ensures post.Ok? && exec.Some? ==> r.result == Err(Redis(exec.value)) && r.worker.redis == w.redis
    ensures post.Ok? && exec.None? ==>
              r.result == Ok(()) && r.worker.redis == ApplyPipeline(w.redis, MarkCommands(negotiationKey, applicationKey))
  {
    var w1 := w.(effects := w.effects + Waited(w, clock) + [Post(PostTime(w, clock), target, body)]);
    if post.Err? then Step(w1, Err(Webhook(post.error)))
    else
      var commands := MarkCommands(negotiationKey, applicationKey);
      var w2 := w1.(last := clock.afterPost, effects := w1.effects + [Exec(commands)]);
      if exec.Some? then Step(w2, Err(Redis(exec.value)))
      else Step(w2.(redis := ApplyPipeline(w2.redis, commands)), Ok(()))
  }

  /** The effects of the two fetches. */
  function Fetches(n: Negotiation): seq<Effect> {
    [Fetch("/vacancies/" + n.vacancyId), Fetch("/resumes/" + n.resumeId)]
  }

  /** `process` for one job. */
  function ProcessJob(w: Worker, n: Negotiation, settings: Value, clock: JobClock, replies: JobReplies): (r: Step)
    ensures |w.effects| < |r.worker.effects| && r.worker.effects[..|w.effects|] == w.effects
    ensures r.worker.effects[|w.effects|] == Fetch("/vacancies/" + n.vacancyId)
  {
    var w1 := w.(effects := w.effects + [Fetch("/vacancies/" + n.vacancyId)]);
    if replies.vacancy.Err? then Step(w1, Err(Api(replies.vacancy.error)))
    else
      var w2 := w1.(effects := w1.effects + [Fetch("/resumes/" + n.resumeId)]);
      assert w2.effects == w.effects + Fetches(n);
      if replies.resume.Err? then Step(w2, Err(Api(replies.resume.error)))
      else if replies.existsCheck.Some? then Step(w2, Err(Redis(replies.existsCheck.value)))
      else if CheckDuplicateStatus(w2.redis, n).isDuplicate then Step(w2, Ok(()))
      else
        var r := Deliver(w2, NegotiationKey(n.id), ApplicationKey(n.userId, n.vacancyId, n.resumeId),
                         Target(settings, replies.vacancy.value), Body(n, replies.vacancy.value, replies.resume.value),
                         clock, replies.post, replies.exec);
        assert r.worker.effects[..|w2.effects|] == w2.effects;
        assert r.worker.effects[..|w.effects|] == w2.effects[..|w.effects|];
        r
  }

  /** Both fetches and the duplicate check succeeded and the negotiation is new. */
  predicate GoesOut(w: Worker, n: Negotiation, replies: JobReplies) {
    replies.vacancy.Ok? && replies.resume.Ok? && replies.existsCheck.None? && !CheckDuplicateStatus(w.redis, n).isDuplicate
  }

  /** ProcessJob reduced to its cases. */
  lemma ProcessCases(w: Worker, n: Negotiation, settings: Value, clock: JobClock, replies: JobReplies)
    ensures var r := ProcessJob(w, n, settings, clock, replies);
            (replies.vacancy.Err? ==>
               r == Step(w.(effects := w.effects + [Fetch("/vacancies/" + n.vacancyId)]), Err(Api(replies.vacancy.error)))) &&
            (replies.vacancy.Ok? && replies.resume.Err? ==>
               r == Step(w.(effects := w.effects + Fetches(n)), Err(Api(replies.resume.error)))) &&
            (replies.vacancy.Ok? && replies.resume.Ok? && replies.existsCheck.Some? ==>
               r == Step(w.(effects := w.effects + Fetches(n)), Err(Redis(replies.existsCheck.value)))) &&
            (replies.vacancy.Ok? && replies.resume.Ok? && replies.existsCheck.None? && CheckDuplicateStatus(w.redis, n).isDuplicate ==>
               r == Step(w.(effects := w.effects + Fetches(n)), Ok(()))) &&
            (GoesOut(w, n, replies) ==>
               r == Deliver(w.(effects := w.effects + Fetches(n)), NegotiationKey(n.id),
                            ApplicationKey(n.userId, n.vacancyId, n.resumeId),
                            Target(settings, replies.vacancy.value), Body(n, replies.vacancy.value, replies.resume.value),
                            clock, replies.post, replies.exec))
  {
    assert w.effects + [Fetch("/vacancies/" + n.vacancyId)] + [Fetch("/resumes/" + n.resumeId)] == w.effects + Fetches(n);
  }

  /** A duplicate is fetched and then dropped: no post, no mark, no change to
      the rate-limit clock, and the job completes. */
  lemma DuplicateSkipsPostAndMark(w: Worker, n: Negotiation, settings: Value, clock: JobClock, replies: JobReplies)
    requires replies.vacancy.Ok? && replies.resume.Ok? && replies.existsCheck.None? && CheckDuplicateStatus(w.redis, n).isDuplicate
    ensures ProcessJob(w, n, settings, clock, replies) == Step(w.(effects := w.effects + Fetches(n)), Ok(()))
  {
    ProcessCases(w, n, settings, clock, replies);
  }

  /** A new negotiation whose calls all succeed is fetched, posted after the
      rate-limit wait to the manager's webhook, and marked after the post; the
      rate-limit clock is the time the post returned. */
  lemma NewNegotiationIsPostedThenMarked(w: Worker, n: Negotiation, settings: Value, clock: JobClock, replies: JobReplies)
    requires GoesOut(w, n, replies) && replies.post.Ok? && replies.exec.None?
    ensures var r := ProcessJob(w, n, settings, clock, replies);
            var body := Body(n, replies.vacancy.value, replies.resume.value);
            r.result == Ok(()) &&
            r.worker.effects == w.effects + Fetches(n) + Waited(w, clock) +
                                [Post(PostTime(w, clock), Target(settings, replies.vacancy.value), body),
                                 Exec(MarkCommands(NegotiationKey(n.id), ApplicationKey(n.userId, n.vacancyId, n.resumeId)))] &&
            r.worker.redis == MarkProcessed(w.redis, n) &&
            r.worker.last == clock.afterPost
  {
    ProcessCases(w, n, settings, clock, replies);
    var w2 := w.(effects := w.effects + Fetches(n));
    assert Waited(w2, clock) == Waited(w, clock) && PostTime(w2, clock) == PostTime(w, clock);
  }

  /** Every failure is rethrown: the job completes exactly when both fetches
      and the duplicate check succeed and the negotiation is a duplicate or is
      posted and marked. */
  lemma FailuresAreRethrown(w: Worker, n: Negotiation, settings: Value, clock: JobClock, replies: JobReplies)
    ensures var r := ProcessJob(w, n, settings, clock, replies);
            (r.result.Ok? <==> replies.vacancy.Ok? && replies.resume.Ok? && replies.existsCheck.None? &&
                               (CheckDuplicateStatus(w.redis, n).isDuplicate || (replies.post.Ok? && replies.exec.None?))) &&
            (replies.vacancy.Err? ==> r.result == Err(Api(replies.vacancy.error))) &&
            (replies.vacancy.Ok? && replies.resume.Err? ==> r.result == Err(Api(replies.resume.error))) &&
            (replies.vacancy.Ok? && replies.resume.Ok? && replies.existsCheck.Some? ==>
               r.result == Err(Redis(replies.existsCheck.value))) &&
            (GoesOut(w, n, replies) && replies.post.Err? ==> r.result == Err(Webhook(replies.post.error))) &&
            (GoesOut(w, n, replies) && replies.post.Ok? && replies.exec.Some? ==>
               r.result == Err(Redis(replies.exec.value)))
  {
    ProcessCases(w, n, settings, clock, replies);
  }

  /** The rate-limit clock moves only after a successful post. */
  lemma LastMovesOnlyAfterPost(w: Worker, n: Negotiation, settings: Value, clock: JobClock, replies: JobReplies)
    ensures ProcessJob(w, n, settings, clock, replies).worker.last ==
              if GoesOut(w, n, replies) && replies.post.Ok? then clock.afterPost else w.last
  {
    ProcessCases(w, n, settings, clock, replies);
  }

  /** The store changes only by the marks of a job that posted. */
  lemma MarkOnlyAfterPost(w: Worker, n: Negotiation, settings: Value, clock: JobClock, replies: JobReplies)
    ensures var r := ProcessJob(w, n, settings, clock, replies);
            r.worker.redis == w.redis ||
            (GoesOut(w, n, replies) && replies.post.Ok? && r.worker.redis == MarkProcessed(w.redis, n))
  {
    ProcessCases(w, n, settings, clock, replies);
  }

  /** Every exec the job issues comes right after its post. */
  lemma ExecFollowsPost(w: Worker, n: Negotiation, settings: Value, clock: JobClock, replies: JobReplies)
    ensures var r := ProcessJob(w, n, settings, clock, replies);
            forall i :: |w.effects| <= i < |r.worker.effects| && r.worker.effects[i].Exec? ==>
              |w.effects| < i && r.worker.effects[i - 1].Post?
  {
    ProcessCases(w, n, settings, clock, replies);
    var e := ProcessJob(w, n, settings, clock, replies).worker.effects;
    if GoesOut(w, n, replies) {
      var w2 := w.(effects := w.effects + Fetches(n));
      if replies.post.Ok? {
        TailExecFollowsPost(w.effects, Fetches(n) + Waited(w2, clock),
                            [Post(PostTime(w2, clock), Target(settings, replies.vacancy.value),
                                  Body(n, replies.vacancy.value, replies.resume.value)),
                             Exec(MarkCommands(NegotiationKey(n.id), ApplicationKey(n.userId, n.vacancyId, n.resumeId)))]);
      }
    }
  }

  /** After a prefix, effects with no exec, then a post and an exec: the only
      exec comes right after the post. */
  lemma TailExecFollowsPost(pre: seq<Effect>, mid: seq<Effect>, tail: seq<Effect>)
    requires forall i :: 0 <= i < |mid| ==> !mid[i].Exec?
    requires |tail| == 2 && tail[0].Post? && tail[1].Exec?
    ensures var e := pre + mid + tail;
            forall i :: |pre| <= i < |e| && e[i].Exec? ==> |pre| < i && e[i - 1].Post?
  {
  }

  /** With a clock that does not go back, two jobs that both post are at least
      a second apart: the second post goes out no sooner than a second after
      the first one returned. */
  lemma SuccessivePostsAreSpaced(w: Worker, n1: Negotiation, n2: Negotiation, settings: Value,
                                 clock1: JobClock, clock2: JobClock, replies1: JobReplies, replies2: JobReplies)
    requires GoesOut(w, n1, replies1) && replies1.post.Ok?
    requires clock1.afterPost >= PostTime(w, clock1) && clock1.afterPost != 0
    ensures var w1 := ProcessJob(w, n1, settings, clock1, replies1).worker;
            PostTime(w1, clock2) >= clock1.afterPost + MinInterval &&
            PostTime(w1, clock2) >= PostTime(w, clock1) + MinInterval
  {
    LastMovesOnlyAfterPost(w, n1, settings, clock1, replies1);
    PostsAtLeastASecondApart(clock2.now, clock1.afterPost);
  }

  /** A negotiation that was processed to the end is a duplicate when it comes
      again: the redelivery posts nothing. */
  lemma RedeliveryIsDropped(w: Worker, n: Negotiation, settings: Value, clock1: JobClock, clock2: JobClock,
                            replies1: JobReplies, replies2: JobReplies)
    requires GoesOut(w, n, replies1) && replies1.post.Ok? && replies1.exec.None?
    requires replies2.vacancy.Ok? && replies2.resume.Ok? && replies2.existsCheck.None?
    ensures var w1 := ProcessJob(w, n, settings, clock1, replies1).worker;
            ProcessJob(w1, n, settings, clock2, replies2) == Step(w1.(effects := w1.effects + Fetches(n)), Ok(()))
  {
    NewNegotiationIsPostedThenMarked(w, n, settings, clock1, replies1);
    var w1 := ProcessJob(w, n, settings, clock1, replies1).worker;
    MarkedIsDuplicate(w.redis, n);
    DuplicateSkipsPostAndMark(w1, n, settings, clock2, replies2);
  }

  /** Delivery is at least once: when the marks fail after the post, the
      retried job is not a duplicate and posts again. */
  lemma FailedMarkPostsAgain(w: Worker, n: Negotiation, settings: Value, clock1: JobClock, clock2: JobClock,
                             replies1: JobReplies, replies2: JobReplies)
    requires GoesOut(w, n, replies1) && replies1.post.Ok? && replies1.exec.Some?
    requires replies2.vacancy.Ok? && replies2.resume.Ok? && replies2.existsCheck.None?
    ensures var w1 := ProcessJob(w, n, settings, clock1, replies1).worker;
            GoesOut(w1, n, replies2) &&
            Post(PostTime(w1, clock2), Target(settings, replies2.vacancy.value),
                 Body(n, replies2.vacancy.value, replies2.resume.value)) in
              ProcessJob(w1, n, settings, clock2, replies2).worker.effects
  {
    ProcessCases(w, n, settings, clock1, replies1);
    var w1 := ProcessJob(w, n, settings, clock1, replies1).worker;
    ProcessCases(w1, n, settings, clock2, replies2);
    var w2 := w1.(effects := w1.effects + Fetches(n));
    assert Waited(w2, clock2) == Waited(w1, clock2) && PostTime(w2, clock2) == PostTime(w1, clock2);
  }

  /** The worker object: the Redis client's store, the time of the last
      successful post and the effects it has had. */
  class QueueProcessor {
    var redis: Store
    var lastWebhookRequestTime: int
    var effects: seq<Effect>
    /** The parsed routing table of webhook URLs. */
    const settings: Value

    function State(): Worker
      reads this
    {
      Worker(redis, lastWebhookRequestTime, effects)
    }

    constructor(store: Store, routing: Value)
      ensures State() == Worker(store, 0, []) && settings == routing
    {
      redis := store;
      lastWebhookRequestTime := 0;
      effects := [];
      settings := routing;
    }

    /** checkDuplicateStatus: two EXISTS awaited together, whose rejection
        (`failure`) is rethrown, then the negotiation reason first. */
    method CheckDuplicateStatus(n: Negotiation, failure: Option<string>) returns (status: Result<DuplicateStatus, Failure>)
      ensures failure.Some? ==> status == Err(Redis(failure.value))
      ensures failure.None? ==>
                status.Ok? &&
                (status.value.isDuplicate <==>
                   NegotiationKey(n.id) in redis || ApplicationKey(n.userId, n.vacancyId, n.resumeId) in redis)
      ensures failure.None? ==> status == Ok(HhDedup.CheckDuplicateStatus(redis, n))
    {
      var negotiationExists := Exists(redis, NegotiationKey(n.id));
      var applicationExists := Exists(redis, ApplicationKey(n.userId, n.vacancyId, n.resumeId));
      if failure.Some? {
        return Err(Redis(failure.value));
      }
      if negotiationExists {
        return Ok(DuplicateStatus(true, Some(NegotiationProcessed)));
      }
      if applicationExists {
        return Ok(DuplicateStatus(true, Some(AlreadyApplied)));
      }
      return Ok(DuplicateStatus(false, None));
    }

    /** rateLimit: wait when the last post is less than a second ago. */
    method RateLimit(now: int) returns (delay: int)
      modifies this
      ensures delay == RateLimitDelay(now, old(lastWebhookRequestTime))
      ensures redis == old(redis) && lastWebhookRequestTime == old(lastWebhookRequestTime)
      ensures effects == old(effects) + (if delay > 0 then [Sleep(delay)] else [])
    {
      var timeSinceLastRequest := now - lastWebhookRequestTime;
      delay := 0;
      if timeSinceLastRequest < MinInterval && lastWebhookRequestTime != 0 {
        delay := MinInterval - timeSinceLastRequest;
        effects := effects + [Sleep(delay)];
      }
    }

    /** updateNegotiationStatus: both marks in one pipeline; a failed exec is
        rethrown and, in the model, applies nothing. */
    method UpdateNegotiationStatus(n: Negotiation, exec: Option<string>) returns (result: Result<(), Failure>)
      modifies this
      ensures lastWebhookRequestTime == old(lastWebhookRequestTime)
      ensures effects == old(effects) + [Exec(MarkCommands(NegotiationKey(n.id), ApplicationKey(n.userId, n.vacancyId, n.resumeId)))]
      ensures exec.None? ==> result == Ok(()) && redis == MarkProcessed(old(redis), n)
      ensures exec.Some? ==> result == Err(Redis(exec.value)) && redis == old(redis)
    {
      var negotiationKey := NegotiationKey(n.id);
      var applicationKey := ApplicationKey(n.userId, n.vacancyId, n.resumeId);
      var pipeline: seq<SetCommand> := [];
      pipeline := pipeline + [SetCommand(negotiationKey, ProcessedValue, NegotiationTtl)];
      pipeline := pipeline + [SetCommand(applicationKey, ProcessedValue, ApplicationTtl)];
      assert pipeline == MarkCommands(negotiationKey, applicationKey);
      effects := effects + [Exec(pipeline)];
      if exec.Some? {
        return Err(Redis(exec.value));
      }
      redis := ApplyPipeline(redis, pipeline);
      result := Ok(());
    }

    /** process. */
    method Process(n: Negotiation, clock: JobClock, replies: JobReplies) returns (result: Result<(), Failure>)
      modifies this
      ensures var r := ProcessJob(old(State()), n, settings, clock, replies);
              State() == r.worker && result == r.result
    {
      ghost var before := State();
      ProcessCases(before, n, settings, clock, replies);
      effects := effects + [Fetch("/vacancies/" + n.vacancyId)];
      if replies.vacancy.Err? {
        return Err(Api(replies.vacancy.error));
      }
      var vacancy := replies.vacancy.value;
      effects := effects + [Fetch("/resumes/" + n.resumeId)];
      assert effects == before.effects + Fetches(n);
      if replies.resume.Err? {
        return Err(Api(replies.resume.error));
      }
      var resume := replies.resume.value;
      var status := CheckDuplicateStatus(n, replies.existsCheck);
      if status.Err? {
        return Err(status.error);
      }
      if status.value.isDuplicate {
        return Ok(());
      }
      result := PostAndMark(n, Target(settings, vacancy), Body(n, vacancy, resume), clock, replies.post, replies.exec);
    }

    /** The second half of process, once the negotiation is known to be new:
        rate limit, post, then mark. */
    method PostAndMark(n: Negotiation, target: Value, response: Value, clock: JobClock,
                       post: Result<(), HttpError>, exec: Option<string>) returns (result: Result<(), Failure>)
      modifies this
      ensures var r := Deliver(old(State()), NegotiationKey(n.id), ApplicationKey(n.userId, n.vacancyId, n.resumeId),
                               target, response, clock, post, exec);
              State() == r.worker && result == r.result
    {
      ghost var before := State();
      var delay := RateLimit(clock.now);
      effects := effects + [Post(clock.now + delay, target, response)];
      assert effects == before.effects + Waited(before, clock) + [Post(PostTime(before, clock), target, response)];
      if post.Err? {
        return Err(Webhook(post.error));
      }
      lastWebhookRequestTime := clock.afterPost;
      result := UpdateNegotiationStatus(n, exec);
    }
  }
}
