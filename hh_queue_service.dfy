/** The job policy of the hh.ru negotiation queue: every webhook becomes one
    job with fixed retry and retention options. How the queue library acts on
    those options (count attempts, wait `delay * 2^(n-1)` before retry n,
    remove or keep a finished job) is library behaviour the repository only
    configures; JobLifecycle states it as the assumption the model rests on. */
module HhQueue {
  import opened JsValue

  datatype Backoff = Backoff(kind: string, delay: nat)

  datatype JobOptions = JobOptions(attempts: nat, backoff: Backoff, removeOnComplete: bool, removeOnFail: bool)

  datatype Job = Job(name: string, data: Value, opts: JobOptions)

  const JobName := "process-negotiation"

  /** Ten attempts, exponential backoff from one second, completed jobs
      removed, failed jobs kept. */
  const NegotiationJobOptions := JobOptions(10, Backoff("exponential", 1000), true, false)

  /** addNegotiationJob: one job, payload `{ negotiation }`, appended to the
      queue. */
  function AddNegotiationJob(queue: seq<Job>, negotiation: Value): (r: seq<Job>)
    ensures |r| == |queue| + 1 && r[..|queue|] == queue
    ensures r[|queue|].name == "process-negotiation" && Prop(r[|queue|].data, "negotiation") == negotiation
    ensures r[|queue|].opts.attempts == 10 && r[|queue|].opts.backoff == Backoff("exponential", 1000)
    ensures r[|queue|].opts.removeOnComplete && !r[|queue|].opts.removeOnFail
  {
    queue + [Job(JobName, Obj(map["negotiation" := negotiation]), NegotiationJobOptions)]
  }

  function Pow2(n: nat): nat {
    if n == 0 then 1 else 2 * Pow2(n - 1)
  }

  /** The wait before retry `n` (n >= 1) under exponential backoff. */
  function ExponentialDelay(delay: nat, n: nat): nat
    requires n >= 1
  {
    delay * Pow2(n - 1)
  }

  /** Where a job ends up. */
  datatype Final = Pending | Removed | KeptCompleted | KeptFailed

  /** The attempts made, the waits between them and where the job ends up. */
  datatype JobRun = JobRun(attemptsMade: nat, waits: seq<nat>, final: Final)

  /** A job's life under the queue's rules, given whether each attempt
      returns (true) or throws (false); `made` attempts have already failed. */
  function JobLifecycle(opts: JobOptions, outcomes: seq<bool>, made: nat): (r: JobRun)
    ensures made <= r.attemptsMade <= made + |outcomes|
    ensures r.final == Pending <==> made + |outcomes| < opts.attempts && forall i :: 0 <= i < |outcomes| ==> !outcomes[i]
    decreases |outcomes|
  {
    if outcomes == [] then JobRun(made, [], if made >= opts.attempts then KeptFailed else Pending)
    else if outcomes[0] then JobRun(made + 1, [], if opts.removeOnComplete then Removed else KeptCompleted)
    else if made + 1 >= opts.attempts then JobRun(made + 1, [], if opts.removeOnFail then Removed else KeptFailed)
    else
      var rest := JobLifecycle(opts, outcomes[1..], made + 1);
      assert forall i :: 1 <= i < |outcomes| ==> outcomes[i] == outcomes[1..][i - 1];
      rest.(waits := [ExponentialDelay(opts.backoff.delay, made + 1)] + rest.waits)
  }

  /** A negotiation job is attempted at most ten times. */
  lemma {:induction false} AtMostTenAttempts(outcomes: seq<bool>, made: nat)
    requires made < 10
    decreases |outcomes|
    ensures JobLifecycle(NegotiationJobOptions, outcomes, made).attemptsMade <= 10
  {
    if outcomes != [] && !outcomes[0] && made + 1 < 10 {
      AtMostTenAttempts(outcomes[1..], made + 1);
    }
  }

  /** A job that fails every attempt from `made` on is kept as failed after
      the last allowed attempt, having waited delay, 2·delay, 4·delay, ...
      between attempts. */
  lemma {:induction false} FailingJobIsKept(opts: JobOptions, outcomes: seq<bool>, made: nat)
    requires made < opts.attempts <= made + |outcomes|
    requires forall i :: 0 <= i < |outcomes| ==> !outcomes[i]
    requires !opts.removeOnFail
    decreases |outcomes|
    ensures var r := JobLifecycle(opts, outcomes, made);
            r.attemptsMade == opts.attempts && r.final == KeptFailed &&
            |r.waits| == opts.attempts - made - 1 &&
            forall i :: 0 <= i < |r.waits| ==> r.waits[i] == opts.backoff.delay * Pow2(made + i)
  {
    if made + 1 < opts.attempts {
      assert forall i :: 0 <= i < |outcomes[1..]| ==> outcomes[1..][i] == outcomes[i + 1];
      FailingJobIsKept(opts, outcomes[1..], made + 1);
    }
  }

  /** Ten failures in a row: the job is kept as failed after ten attempts and
      nine waits of 1 s, 2 s, 4 s, ... 256 s. */
  lemma NegotiationJobGivesUpAfterTen(outcomes: seq<bool>)
    requires |outcomes| >= 10 && forall i :: 0 <= i < |outcomes| ==> !outcomes[i]
    ensures var r := JobLifecycle(NegotiationJobOptions, outcomes, 0);
            r.attemptsMade == 10 && r.final == KeptFailed && |r.waits| == 9 &&
            r.waits[0] == 1000 && r.waits[8] == 256000
  {
    FailingJobIsKept(NegotiationJobOptions, outcomes, 0);
    assert Pow2(8) == 256 by {
      assert Pow2(1) == 2 && Pow2(2) == 4 && Pow2(3) == 8 && Pow2(4) == 16;
    }
  }

  /** A job whose attempt k (counted from 0) is the first to return completes
      there and is removed. */
  lemma {:induction false} SucceedingJobIsRemoved(outcomes: seq<bool>, made: nat, k: nat)
    requires made + k < 10 && k < |outcomes| && outcomes[k]
    requires forall i :: 0 <= i < k ==> !outcomes[i]
    decreases k
    ensures var r := JobLifecycle(NegotiationJobOptions, outcomes, made);
            r.final == Removed && r.attemptsMade == made + k + 1
  {
    if k > 0 {
      assert forall i :: 0 <= i < k - 1 ==> outcomes[1..][i] == outcomes[i + 1];
      SucceedingJobIsRemoved(outcomes[1..], made + 1, k - 1);
    }
  }
}
