/**
 * The bucket behind the queue-driven handler (src/BucketAsync.ts): a job
 * queue that runs one request at a time, is paused by a block and is never
 * resumed, drops requests while paused, and reports rate limits by failing
 * the job with a RateLimitError.
 */
module BucketAsync {
  import opened Wrappers
  import opened RateLimitHeaders
  import BucketId
  import opened Policy
  import opened Requests
  import Bucket

  datatype Event =
    | RecognizeUrlBucket(url: string, bucketId: string)
    | RateLimit(requestId: nat, durationMs: int)
    | GlobalRateLimit(requestId: nat, durationMs: int)
    | CloudflareRateLimit(requestId: nat, durationMs: int)
    | InvalidRequest(requestId: nat)
    | JobFinished(requestId: nat, response: Response)
    | FinishedAll

  /** How a job ends: it finished, it threw RateLimitError, or its fetch threw. */
  datatype JobOutcome = Completed | RateLimited | Failed

  /** What the bucket does with a response: the events, the block it starts and how the job ends. */
  datatype Handling = Handling(events: seq<Event>, block: Option<int>, outcome: JobOutcome)

  /**
   * `recognizeURLBucket` of src/BucketAsync.ts: the same rule as
   * Bucket.RecognitionEvents (src/Bucket.js), written again because the
   * async bucket emits its own event type.
   */
  function RecognitionEvents(url: string, h: Headers): (es: seq<Event>)
    ensures HasBucketLimits(h) ==> es == [RecognizeUrlBucket(url, BucketId.ResolveBucketId(url, h.bucket))]
    ensures !HasBucketLimits(h) ==> es == []
  {
    if HasBucketLimits(h) then [RecognizeUrlBucket(url, BucketId.ResolveBucketId(url, h.bucket))] else []
  }

  /** execute after the fetch: handle429Response for a 429, handleResponse otherwise. */
  function HandleResponse(requestId: nat, route: string, response: Response): (r: Handling)
    ensures var rec := RecognitionEvents(route, response.headers);
      |rec| <= |r.events| && r.events[..|rec|] == rec
    ensures r.outcome != Failed
    ensures response.status == 429 ==>
      var n := |RecognitionEvents(route, response.headers)|;
      var d := BlockedDuration(response.headers, true);
      n < |r.events| &&
      r.events[n] == (if IsGloballyBlocked(response.headers) then GlobalRateLimit(requestId, d) else RateLimit(requestId, d))
  {
    var h := response.headers;
    var recognized := RecognitionEvents(route, h);
    if response.status == 429 then
      var d := BlockedDuration(h, true);
      var limited := if IsGloballyBlocked(h) then GlobalRateLimit(requestId, d) else RateLimit(requestId, d);
      if d == NoDuration then
        Handling(recognized + [limited, CloudflareRateLimit(requestId, CloudflareFallbackMs)], None, RateLimited)
      else
        Handling(recognized + [limited, InvalidRequest(requestId)], Some(d), RateLimited)
    else
      var invalid := if response.status == 401 || response.status == 403 then [InvalidRequest(requestId)] else [];
      var d := BlockedDuration(h, false);
      if d != NoDuration then
        Handling(recognized + invalid, Some(d), RateLimited)
      else
        Handling(recognized + invalid + [JobFinished(requestId, response)], None, Completed)
  }

  /**
   * A job completes (and reports jobFinished) exactly when the response is
   * not a 429 and its headers give no block; every block fails the job.
   */
  lemma JobCompletesUnlessLimited(requestId: nat, route: string, response: Response)
    ensures var r := HandleResponse(requestId, route, response);
      (r.outcome == Completed <==> response.status != 429 && BlockedDuration(response.headers, false) == NoDuration) &&
      (JobFinished(requestId, response) in r.events <==> r.outcome == Completed) &&
      (r.block.Some? ==> r.outcome == RateLimited)
  {
  }

  /**
   * A 429 first reports globalRateLimit (when the global header is set) or
   * rateLimit with the duration its headers give; it blocks for that
   * duration (ignoring Remaining) and counts as invalid; one that gives
   * none is reported as a Cloudflare limit of three hours but neither
   * blocks the bucket nor counts as invalid here.
   */
  lemma RateLimitedResponse(requestId: nat, route: string, response: Response)
    requires response.status == 429
    ensures var r := HandleResponse(requestId, route, response);
      var d := BlockedDuration(response.headers, true);
      var rec := RecognitionEvents(route, response.headers);
      var limited := if IsGloballyBlocked(response.headers) then GlobalRateLimit(requestId, d) else RateLimit(requestId, d);
      r.outcome == RateLimited &&
      (d == NoDuration ==> r.events == rec + [limited, CloudflareRateLimit(requestId, CloudflareFallbackMs)]) &&
      (d != NoDuration ==> r.events == rec + [limited, InvalidRequest(requestId)]) &&
      (d == NoDuration ==> r.block == None && InvalidRequest(requestId) !in r.events &&
                           r.events[|r.events| - 1] == CloudflareRateLimit(requestId, CloudflareFallbackMs)) &&
      (d != NoDuration ==> r.block == Some(d) && r.events[|r.events| - 1] == InvalidRequest(requestId))
  {
  }

  /** 401 and 403 count as invalid whether or not the response also blocks. */
  lemma ForbiddenCountsAsInvalid(requestId: nat, route: string, response: Response)
    requires response.status == 401 || response.status == 403
    ensures InvalidRequest(requestId) in HandleResponse(requestId, route, response).events
  {
    var r := HandleResponse(requestId, route, response);
    var n := |RecognitionEvents(route, response.headers)|;
    assert r.events[n] == InvalidRequest(requestId);
  }

  function RunningSeq(running: Option<ApiRequest>): seq<ApiRequest>
  {
    if running.Some? then [running.value] else []
  }

  class AsyncBucket {
    const id: string
    var blockedUntil: Option<int>
    /** The job queue is paused (by a block). */
    var paused: bool
    /** Jobs added and not done (the queue's size). */
    var waiting: seq<ApiRequest>
    /** The one job the queue runs at a time. */
    var running: Option<ApiRequest>
    /** Jobs the queue has run, in the order it ran them. */
    ghost var done: seq<ApiRequest>

    /**
     * Jobs run in the order they were added (ids grow with that order),
     * and an unpaused idle queue has nothing waiting.
     */
    ghost predicate Valid()
      reads this`done, this`running, this`waiting, this`paused
    {
      Bucket.Increasing(Bucket.Ids(Jobs())) &&
      (!paused && running.None? ==> waiting == [])
    }

    /** Every job the queue has been given and not cleared, in the order it was given them. */
    ghost function Jobs(): seq<ApiRequest>
      reads this`done, this`running, this`waiting
    {
      done + RunningSeq(running) + waiting
    }

    constructor (id: string)
      ensures this.id == id && blockedUntil == None && !paused && waiting == [] && running == None
      ensures done == [] && Valid()
    {
      this.id := id;
      blockedUntil := None;
      paused := false;
      waiting := [];
      running := None;
      done := [];
    }

    /** queue.size > 0: jobs wait to start (the running one is not counted). */
    predicate HasPendingRequests()
      reads this`waiting
    {
      |waiting| > 0
    }

    /** Pauses the queue and holds the bucket until now + durationMs. */
    method Block(durationMs: int, now: int)
      modifies this`blockedUntil, this`paused
      ensures blockedUntil == Some(now + durationMs) && paused
      ensures old(Valid()) ==> Valid()
    {
      paused := true;
      blockedUntil := Some(now + durationMs);
    }

    /**
     * The block's timer fires (as written): the deadline is cleared but the
     * queue stays paused, so the bucket keeps dropping what it is given
     * (see ExpiredBlockStillDropsRequests).
     */
    method BlockTimerFires()
      modifies this`blockedUntil
      ensures blockedUntil == None
    {
      blockedUntil := None;
    }

    /**
     * The corrected timer: the deadline is cleared and the queue starts
     * again, running its oldest waiting job when none is running.
     */
    method BlockTimerFiresFixed()
      requires Valid()
      modifies this`blockedUntil, this`paused, this`waiting, this`running
      ensures Valid() && blockedUntil == None && !paused && Jobs() == old(Jobs()) && done == old(done)
      ensures old(running).None? && old(waiting) != [] ==>
        running == Some(old(waiting)[0]) && waiting == old(waiting)[1..]
      ensures old(running).Some? || old(waiting) == [] ==> running == old(running) && waiting == old(waiting)
    {
      ghost var jobs := Jobs();
      blockedUntil := None;
      paused := false;
      if running.None? && waiting != [] {
        running := Some(waiting[0]);
        waiting := waiting[1..];
        assert done + RunningSeq(running) + waiting == jobs;
      }
    }

    /** Gives other the same deadline, pausing it too, when this bucket is blocked. */
    method CopyBlockTo(other: AsyncBucket, now: int)
      modifies other`blockedUntil, other`paused
      ensures IsBlockedAt(old(blockedUntil), now) ==> other.blockedUntil == old(blockedUntil) && other.paused
      ensures !IsBlockedAt(old(blockedUntil), now) ==>
        other.blockedUntil == old(other.blockedUntil) && other.paused == old(other.paused)
      ensures old(other.Valid()) ==> other.Valid()
    {
      if IsBlockedAt(blockedUntil, now) {
        other.Block(blockedUntil.value - now, now);
      }
    }

    /**
     * Adds the request as a job, done at once when the queue is idle; a
     * paused queue drops it without running it.
     */
    method Enqueue(request: ApiRequest) returns (added: bool)
      requires Valid()
      requires forall r :: r in Jobs() ==> r.id < request.id
      modifies this`waiting, this`running, this`done
      ensures Valid()
      ensures added == !old(paused)
      ensures Jobs() == if added then old(Jobs()) + [request] else old(Jobs())
      ensures !added ==> waiting == old(waiting) && running == old(running) && done == old(done)
      ensures added && old(running).None? ==>
        running == Some(request) && waiting == [] && done == old(done)
      ensures added && old(running).Some? ==>
        running == old(running) && waiting == old(waiting) + [request] && done == old(done)
    {
      if paused {
        return false;
      }
      added := true;
      ghost var jobs := done + RunningSeq(running) + waiting;
      assert Bucket.Ids(jobs + [request]) == Bucket.Ids(jobs) + [request.id];
      forall y | y in Bucket.Ids(jobs)
        ensures y < request.id
      {
        var i :| 0 <= i < |jobs| && Bucket.Ids(jobs)[i] == y;
        assert jobs[i] in Jobs();
      }
      Bucket.IncreasingAppend(Bucket.Ids(jobs), request.id);
      if running.None? {
        assert waiting == [];
        running := Some(request);
        assert done + RunningSeq(running) + waiting == jobs + [request];
      } else {
        waiting := waiting + [request];
        assert done + RunningSeq(running) + waiting == jobs + [request];
      }
    }

    /** Empties the queue of jobs not yet done. */
    method Clear()
      requires Valid()
      modifies this`waiting
      ensures Valid() && waiting == [] && Jobs() == old(done + RunningSeq(running))
    {
      ghost var jobs := done + RunningSeq(running) + waiting;
      assert done + RunningSeq(running) == jobs[..|done + RunningSeq(running)|];
      waiting := [];
      assert done + RunningSeq(running) + waiting == done + RunningSeq(running);
    }

    /** The running job ends: the next waiting job starts unless the queue is paused; an idle queue emits finishedAll. */
    method JobDone() returns (events: seq<Event>)
      requires Valid() && running.Some?
      modifies this`waiting, this`running, this`done
      ensures Valid() && Jobs() == old(Jobs())
      ensures !paused && old(waiting) != [] ==>
        running == Some(old(waiting)[0]) && waiting == old(waiting)[1..] && done == old(done) + [old(running).value]
      ensures paused || old(waiting) == [] ==>
        running == None && waiting == old(waiting) && done == old(done) + [old(running).value]
      ensures events == if running == None && waiting == [] then [FinishedAll] else []
    {
      ghost var jobs := done + RunningSeq(running) + waiting;
      done := done + [running.value];
      running := None;
      if !paused && waiting != [] {
        running := Some(waiting[0]);
        waiting := waiting[1..];
        assert done + RunningSeq(running) + waiting == jobs;
      } else {
        assert done + RunningSeq(running) + waiting == jobs;
      }
      events := if running == None && waiting == [] then [FinishedAll] else [];
    }

    /**
     * The running job: fetch the request (with retries) and handle the
     * response; a block pauses the queue.
     */
    method Execute(request: ApiRequest, now: int, transport: nat -> Reply)
      returns (outcome: JobOutcome, events: seq<Event>)
      requires running == Some(request)
      modifies this`blockedUntil, this`paused, request
      ensures var reply := FetchFrom(transport, None, 0).reply;
        request.fetchSuccess == Some(reply.Answered?) &&
        (reply.NetworkError? ==> outcome == Failed && events == [] &&
                                 blockedUntil == old(blockedUntil) && paused == old(paused)) &&
        (reply.Answered? ==>
          var handling := HandleResponse(request.id, request.route, reply.response);
          events == handling.events && outcome == handling.outcome &&
          (handling.block.Some? ==> blockedUntil == Some(now + handling.block.value) && paused) &&
          (handling.block.None? ==> blockedUntil == old(blockedUntil) && paused == old(paused)))
    {
      var reply := request.Execute(transport, None);
      if reply.NetworkError? {
        outcome := Failed;
        events := [];
        return;
      }
      var handling := HandleResponse(request.id, request.route, reply.response);
      events := handling.events;
      outcome := handling.outcome;
      if handling.block.Some? {
        Block(handling.block.value, now);
      }
    }
  }

  /** Once blocked, a bucket drops every request enqueued afterwards. */
  method BlockedBucketDropsRequests() returns (dropped: bool)
    ensures dropped
  {
    var counter := new IdCounter();
    var bucket := new AsyncBucket("https://discord.com/api/users/123");
    bucket.Block(1000, 0);
    var request := new ApiRequest(bucket.id, counter);
    var added := bucket.Enqueue(request);
    dropped := !added && bucket.waiting == [] && bucket.running == None;
  }

  /** As written: a block that has run out still leaves the bucket dropping every request. */
  method ExpiredBlockStillDropsRequests() returns (dropped: bool)
    ensures dropped
  {
    var counter := new IdCounter();
    var bucket := new AsyncBucket("https://discord.com/api/users/123");
    bucket.Block(1000, 0);
    bucket.BlockTimerFires();
    var request := new ApiRequest(bucket.id, counter);
    var added := bucket.Enqueue(request);
    dropped := !IsBlockedAt(bucket.blockedUntil, 1000) && !added && bucket.running == None && bucket.waiting == [];
  }

  /** Corrected: once its block has run out the bucket runs the next request at once. */
  method ExpiredBlockRunsRequests() returns (runs: bool)
    ensures runs
  {
    var counter := new IdCounter();
    var bucket := new AsyncBucket("https://discord.com/api/users/123");
    bucket.Block(1000, 0);
    bucket.BlockTimerFiresFixed();
    var request := new ApiRequest(bucket.id, counter);
    var added := bucket.Enqueue(request);
    runs := !IsBlockedAt(bucket.blockedUntil, 1000) && added && bucket.running == Some(request);
  }
}
