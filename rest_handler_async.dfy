/**
 * The queue-driven handler of src/RESTHandlerAsync.ts: fetch puts each new
 * request on a rate-limited queue, and the queue's worker picks the bucket
 * for it when the item runs. A global block holds every permanent bucket,
 * pauses the queue, and for a Cloudflare limit may drop every permanent
 * bucket's waiting jobs; a timer starts the queue again.
 */
module RestHandlerAsync {
  import opened Wrappers
  import opened Policy
  import opened Requests
  import BucketAsync
  import RegistryAsync

  /** What the handler emits to its own listeners. */
  datatype Event =
    | GlobalBlock(blockType: GlobalBlockType, durationMs: int)
    | GlobalRestore(blockType: GlobalBlockType)
    | RateLimit(requestId: nat, durationMs: int)
    | InvalidRequest(requestId: nat, countSoFar: int)
    | JobCompleted(requestId: nat, response: Response)

  /** The options (RESTHandlerOptions) this handler reads; None is an absent option. */
  datatype Options = Options(invalidRequestsThreshold: Option<int>,
                             globalBlockDurationMultiple: Option<int>,
                             maxRequestsPerSecond: Option<int>,
                             clearQueueAfterGlobalBlock: Option<bool>)

  /** The pending queueBlockTimer: the block it ends and when it fires. */
  datatype Timer = Timer(blockType: GlobalBlockType, firesAt: int)

  const DefaultMaxRequestsPerSecond: int := 35

  /** A global block drops the waiting jobs only when the option is on and the limit came from Cloudflare. */
  predicate ClearsBuckets(clearQueueAfterGlobalBlock: bool, blockType: GlobalBlockType)
  {
    clearQueueAfterGlobalBlock && blockType == CloudflareRateLimitBlock
  }

  class RestHandlerAsync {
    const registry: RegistryAsync.AsyncRegistry
    /** APIRequest.lastId, shared by every request. */
    const counter: IdCounter
    var invalidRequestsCount: int
    const invalidRequestsThreshold: int
    const globalBlockDurationMultiple: int
    /** The queue's rate; the rate itself is not part of this model. */
    const maxRequestsPerSecond: int
    const clearQueueAfterGlobalBlock: bool
    /** The rate-limited queue: whether it is paused, and its items not yet started, oldest first. */
    var paused: bool
    var items: seq<ApiRequest>
    var queueBlockTimer: Option<Timer>

    /** The largest request id the worker has started so far. */
    ghost var started: nat

    /**
     * The queue is first in, first out and every request id is handed out
     * by fetch: the waiting items carry the ids after the last one started,
     * in order.
     */
    ghost predicate ItemsOk()
      reads this`items, this`started, counter
    {
      started + |items| == counter.lastId &&
      forall i :: 0 <= i < |items| ==> items[i].id == started + 1 + i
    }

    /** The registry is sound and no bucket has a job the worker has not started. */
    ghost predicate Valid()
      reads this`items, this`started, registry, counter
      reads registry.Repr`done, registry.Repr`running, registry.Repr`waiting, registry.Repr`paused
    {
      registry.Valid() && registry.JobsAtMost(started) && ItemsOk()
    }

    /** Threshold, multiple and rate default when absent or 0; clearing is on only when the option is true. */
    constructor (options: Options, counter: IdCounter)
      ensures this.counter == counter && fresh(registry) && Valid()
      ensures registry.temporaryBucketsByUrl == map[] && registry.buckets == map[] && registry.bucketsByUrl == map[]
      ensures invalidRequestsThreshold == OrDefault(options.invalidRequestsThreshold, DefaultInvalidRequestsThreshold)
      ensures globalBlockDurationMultiple ==
        OrDefault(options.globalBlockDurationMultiple, DefaultGlobalBlockDurationMultiple)
      ensures maxRequestsPerSecond == OrDefault(options.maxRequestsPerSecond, DefaultMaxRequestsPerSecond)
      ensures clearQueueAfterGlobalBlock <==> options.clearQueueAfterGlobalBlock == Some(true)
      ensures invalidRequestsCount == 0 && !paused && items == [] && queueBlockTimer == None
    {
      registry := new RegistryAsync.AsyncRegistry();
      this.counter := counter;
      invalidRequestsCount := 0;
      invalidRequestsThreshold := OrDefault(options.invalidRequestsThreshold, DefaultInvalidRequestsThreshold);
      globalBlockDurationMultiple :=
        OrDefault(options.globalBlockDurationMultiple, DefaultGlobalBlockDurationMultiple);
      maxRequestsPerSecond := OrDefault(options.maxRequestsPerSecond, DefaultMaxRequestsPerSecond);
      clearQueueAfterGlobalBlock := options.clearQueueAfterGlobalBlock == Some(true);
      paused := false;
      items := [];
      queueBlockTimer := None;
      started := counter.lastId;
    }

    /**
     * A global block of durationMs scaled by the multiple: every permanent
     * bucket is held (and paused) until at least the end of the scaled
     * block, the queue pauses, a Cloudflare block drops the permanent
     * buckets' waiting jobs when the option asks for it, and the restore
     * timer is replaced by one for this block.
     */
    method BlockGloballyByDuration(durationMs: int, blockType: GlobalBlockType, now: int) returns (events: seq<Event>)
      requires Valid()
      modifies this`paused, this`queueBlockTimer, registry.Repr`blockedUntil, registry.Repr`paused, registry.Repr`waiting
      ensures Valid()
      ensures var scaled := durationMs * globalBlockDurationMultiple;
        paused && queueBlockTimer == Some(Timer(blockType, now + scaled)) && events == [GlobalBlock(blockType, scaled)] &&
        (forall k :: k in registry.buckets ==>
          registry.buckets[k].blockedUntil == GlobalDeadline(old(registry.buckets[k].blockedUntil), now, scaled) &&
          registry.buckets[k].paused ==
            (old(registry.buckets[k].paused) || GlobalBlockApplies(old(registry.buckets[k].blockedUntil), now, scaled)))
      ensures forall k :: k in registry.buckets ==>
        registry.buckets[k].waiting ==
          if ClearsBuckets(clearQueueAfterGlobalBlock, blockType) then [] else old(registry.buckets[k].waiting)
      ensures forall r :: r in registry.temporaryBucketsByUrl ==>
        var b := registry.temporaryBucketsByUrl[r];
        b.blockedUntil == old(b.blockedUntil) && b.paused == old(b.paused) && b.waiting == old(b.waiting)
      ensures forall b :: b in registry.Repr && !registry.IsPermanent(b) ==>
        b.blockedUntil == old(b.blockedUntil) && b.paused == old(b.paused) && b.waiting == old(b.waiting)
    {
      var scaled := durationMs * globalBlockDurationMultiple;
      registry.BlockAll(scaled, now, ClearsBuckets(clearQueueAfterGlobalBlock, blockType));
      paused := true;
      events := [GlobalBlock(blockType, scaled)];
      queueBlockTimer := Some(Timer(blockType, now + scaled));
    }

    /** The restore timer fires: the queue starts again and the block's type is announced. */
    method QueueBlockTimerFires() returns (events: seq<Event>)
      requires queueBlockTimer.Some?
      modifies this`paused, this`queueBlockTimer
      ensures !paused && queueBlockTimer == None
      ensures events == [GlobalRestore(old(queueBlockTimer).value.blockType)]
    {
      events := [GlobalRestore(queueBlockTimer.value.blockType)];
      paused := false;
      queueBlockTimer := None;
    }

    /**
     * One more invalid request; the one that makes the count equal the
     * threshold starts a ten-minute INVALID_REQUEST global block, scaled by
     * the multiple. The count is never reset.
     */
    method IncreaseInvalidRequestCount(now: int) returns (events: seq<Event>)
      requires Valid()
      modifies this`invalidRequestsCount, this`paused, this`queueBlockTimer
      modifies registry.Repr`blockedUntil, registry.Repr`paused, registry.Repr`waiting
      ensures Valid()
      ensures var (count, hit) := CountInvalid(old(invalidRequestsCount), invalidRequestsThreshold);
        invalidRequestsCount == count &&
        (hit ==>
          var scaled := TenMinutesMs * globalBlockDurationMultiple;
          events == [GlobalBlock(InvalidRequestBlock, scaled)] && paused &&
          queueBlockTimer == Some(Timer(InvalidRequestBlock, now + scaled)) &&
          forall k :: k in registry.buckets ==>
            registry.buckets[k].blockedUntil == GlobalDeadline(old(registry.buckets[k].blockedUntil), now, scaled) &&
            registry.buckets[k].paused ==
              (old(registry.buckets[k].paused) || GlobalBlockApplies(old(registry.buckets[k].blockedUntil), now, scaled)) &&
            registry.buckets[k].waiting == old(registry.buckets[k].waiting)) &&
        (!hit ==>
          events == [] && paused == old(paused) && queueBlockTimer == old(queueBlockTimer) &&
          forall k :: k in registry.buckets ==>
            registry.buckets[k].blockedUntil == old(registry.buckets[k].blockedUntil) &&
            registry.buckets[k].paused == old(registry.buckets[k].paused) &&
            registry.buckets[k].waiting == old(registry.buckets[k].waiting))
      ensures forall b :: b in registry.Repr && !registry.IsPermanent(b) ==>
        b.blockedUntil == old(b.blockedUntil) && b.paused == old(b.paused) && b.waiting == old(b.waiting)
    {
      invalidRequestsCount := invalidRequestsCount + 1;
      if invalidRequestsCount == invalidRequestsThreshold {
        events := BlockGloballyByDuration(TenMinutesMs, InvalidRequestBlock, now);
      } else {
        events := [];
      }
    }

    /**
     * The handler's listeners on a bucket it holds: a recognised bucket id
     * goes to the registry; a global or Cloudflare limit blocks globally
     * (and is not passed on); a bucket limit is passed on; an invalid
     * request is counted and passed on with the count; a finished job is
     * passed on as jobCompleted; finishedAll from a temporary bucket with a
     * scheduled removal retires it.
     */
    method OnBucketEvent(source: BucketAsync.AsyncBucket, e: BucketAsync.Event, now: int) returns (events: seq<Event>)
      requires Valid() && registry.Holds(source)
      modifies this`invalidRequestsCount, this`paused, this`queueBlockTimer
      modifies registry, registry.Repr`blockedUntil, registry.Repr`paused, registry.Repr`waiting
      ensures Valid() && fresh(registry.Repr - old(registry.Repr))
      ensures !(e.GlobalRateLimit? || e.CloudflareRateLimit? || e.InvalidRequest?) ==>
        invalidRequestsCount == old(invalidRequestsCount) && paused == old(paused) &&
        queueBlockTimer == old(queueBlockTimer)
      ensures !e.RecognizeUrlBucket? ==> registry.Repr == old(registry.Repr)
      ensures !e.RecognizeUrlBucket? && !e.FinishedAll? ==>
        registry.temporaryBucketsByUrl == old(registry.temporaryBucketsByUrl) &&
        registry.buckets == old(registry.buckets) && registry.bucketsByUrl == old(registry.bucketsByUrl) &&
        registry.pendingRemovals == old(registry.pendingRemovals)
      ensures e.RecognizeUrlBucket? || e.RateLimit? || e.JobFinished? ==>
        forall b :: b in old(registry.Repr) ==>
          b.blockedUntil == old(b.blockedUntil) && b.paused == old(b.paused) && b.waiting == old(b.waiting)
      ensures e.FinishedAll? ==> forall b :: b in registry.Repr ==> b.waiting == old(b.waiting)
      ensures forall b :: b in old(registry.Repr) && !old(registry.IsPermanent(b)) ==>
        b.blockedUntil == old(b.blockedUntil) && b.paused == old(b.paused) && b.waiting == old(b.waiting)
      ensures e.RecognizeUrlBucket? ==>
        events == [] && paused == old(paused) && invalidRequestsCount == old(invalidRequestsCount) &&
        registry.temporaryBucketsByUrl == old(registry.temporaryBucketsByUrl) &&
        e.bucketId in registry.buckets && e.url in registry.bucketsByUrl &&
        match Recognize(e.bucketId in old(registry.buckets), e.url in old(registry.bucketsByUrl))
        case CreatePermanent =>
          var b := registry.buckets[e.bucketId];
          fresh(b) && b.id == e.bucketId && b.Jobs() == [] &&
          registry.buckets == old(registry.buckets)[e.bucketId := b] &&
          registry.bucketsByUrl == old(registry.bucketsByUrl)[e.url := b] &&
          registry.pendingRemovals ==
            if e.url in registry.temporaryBucketsByUrl
            then old(registry.pendingRemovals)[e.url := old(registry.Scheduled(e.url)) + [b]]
            else old(registry.pendingRemovals)
        case MapRoute =>
          registry.buckets == old(registry.buckets) &&
          registry.bucketsByUrl == old(registry.bucketsByUrl)[e.url := registry.buckets[e.bucketId]] &&
          registry.pendingRemovals == old(registry.pendingRemovals)
        case Nothing =>
          registry.buckets == old(registry.buckets) && registry.bucketsByUrl == old(registry.bucketsByUrl) &&
          registry.pendingRemovals == old(registry.pendingRemovals)
      ensures e.RateLimit? ==>
        events == [RateLimit(e.requestId, e.durationMs)] && paused == old(paused) &&
        invalidRequestsCount == old(invalidRequestsCount)
      ensures e.GlobalRateLimit? || e.CloudflareRateLimit? ==>
        var scaled := e.durationMs * globalBlockDurationMultiple;
        var blockType := if e.GlobalRateLimit? then GlobalRateLimitBlock else CloudflareRateLimitBlock;
        events == [GlobalBlock(blockType, scaled)] && paused && queueBlockTimer == Some(Timer(blockType, now + scaled)) &&
        invalidRequestsCount == old(invalidRequestsCount) &&
        registry.buckets == old(registry.buckets) &&
        registry.temporaryBucketsByUrl == old(registry.temporaryBucketsByUrl) &&
        (forall k :: k in registry.buckets ==>
          var b := registry.buckets[k];
          b.blockedUntil == GlobalDeadline(old(b.blockedUntil), now, scaled) &&
          b.paused == (old(b.paused) || GlobalBlockApplies(old(b.blockedUntil), now, scaled)) &&
          b.waiting == if ClearsBuckets(clearQueueAfterGlobalBlock, blockType) then [] else old(b.waiting)) &&
        (forall r :: r in registry.temporaryBucketsByUrl ==>
          var b := registry.temporaryBucketsByUrl[r];
          b.blockedUntil == old(b.blockedUntil) && b.paused == old(b.paused) && b.waiting == old(b.waiting))
      ensures e.InvalidRequest? ==>
        var scaled := TenMinutesMs * globalBlockDurationMultiple;
        var hit := invalidRequestsCount == invalidRequestsThreshold;
        invalidRequestsCount == old(invalidRequestsCount) + 1 &&
        events == (if hit then [GlobalBlock(InvalidRequestBlock, scaled)] else []) +
                  [InvalidRequest(e.requestId, invalidRequestsCount)] &&
        paused == (hit || old(paused)) &&
        queueBlockTimer == (if hit then Some(Timer(InvalidRequestBlock, now + scaled)) else old(queueBlockTimer)) &&
        registry.buckets == old(registry.buckets) &&
        forall k :: k in registry.buckets ==>
          var b := registry.buckets[k];
          b.waiting == old(b.waiting) &&
          if hit
          then b.blockedUntil == GlobalDeadline(old(b.blockedUntil), now, scaled) &&
               b.paused == (old(b.paused) || GlobalBlockApplies(old(b.blockedUntil), now, scaled))
          else b.blockedUntil == old(b.blockedUntil) && b.paused == old(b.paused)
      ensures e.JobFinished? ==>
        events == [JobCompleted(e.requestId, e.response)] && paused == old(paused) &&
        invalidRequestsCount == old(invalidRequestsCount)
      ensures e.FinishedAll? ==>
        var drained := source.id in old(registry.pendingRemovals) &&
                       old(registry.temporaryBucketsByUrl[source.id]) == source;
        events == [] && paused == old(paused) &&
        registry.buckets == old(registry.buckets) && registry.bucketsByUrl == old(registry.bucketsByUrl) &&
        registry.temporaryBucketsByUrl ==
          (if drained then old(registry.temporaryBucketsByUrl) - {source.id} else old(registry.temporaryBucketsByUrl)) &&
        registry.pendingRemovals ==
          (if drained then old(registry.pendingRemovals) - {source.id} else old(registry.pendingRemovals)) &&
        forall k :: k in registry.buckets ==>
          var b := registry.buckets[k];
          if drained && IsBlockedAt(old(source.blockedUntil), now) && b in old(registry.pendingRemovals[source.id])
          then b.blockedUntil == old(source.blockedUntil) && b.paused
          else b.blockedUntil == old(b.blockedUntil) && b.paused == old(b.paused)
    {
      match e
      case RecognizeUrlBucket(url, bucketId) =>
        registry.RecognizeUrlBucket(url, bucketId);
        events := [];
      case RateLimit(requestId, durationMs) =>
        events := [RateLimit(requestId, durationMs)];
      case JobFinished(requestId, response) =>
        events := [JobCompleted(requestId, response)];
      case GlobalRateLimit(_, _) | CloudflareRateLimit(_, _) =>
        var blockType := if e.GlobalRateLimit? then GlobalRateLimitBlock else CloudflareRateLimitBlock;
        events := BlockGloballyByDuration(e.durationMs, blockType, now);
      case InvalidRequest(requestId) =>
        events := IncreaseInvalidRequestCount(now);
        events := events + [InvalidRequest(requestId, invalidRequestsCount)];
      case FinishedAll =>
        if source.id in registry.pendingRemovals && registry.temporaryBucketsByUrl[source.id] == source {
          registry.TemporaryBucketDrained(source.id, now);
        }
        events := [];
    }

    /** fetch: a new request joins the end of the rate-limited queue; no bucket is chosen yet. */
    method Fetch(route: string) returns (request: ApiRequest)
      requires Valid()
      modifies counter, this`items
      ensures Valid()
      ensures fresh(request) && request.route == route && request.id == counter.lastId == old(counter.lastId) + 1
      ensures items == old(items) + [request]
    {
      request := new ApiRequest(route, counter);
      items := items + [request];
    }

    /**
     * The queue's worker runs the oldest item: it picks the bucket for the
     * request's route from the registry as it is now and enqueues the
     * request there, where a paused bucket drops it.
     */
    method RunNextItem() returns (request: ApiRequest, bucket: BucketAsync.AsyncBucket, added: bool)
      requires Valid() && !paused && items != []
      modifies this`items, this`started, registry`temporaryBucketsByUrl, registry`Repr
      modifies registry.Repr`waiting, registry.Repr`running, registry.Repr`done
      ensures Valid() && registry.Holds(bucket)
      ensures request == old(items[0]) && items == old(items[1..])
      ensures added == !bucket.paused
      ensures bucket in old(registry.Repr) ==>
        bucket.Jobs() == if added then old(bucket.Jobs()) + [request] else old(bucket.Jobs())
      ensures var old_temps := old(registry.temporaryBucketsByUrl);
        var route := request.route;
        var choice := ChooseBucket(route in registry.bucketsByUrl, route in old_temps,
                                   route in old_temps && old(old_temps[route].HasPendingRequests()));
        (choice == UsePermanent ==>
           bucket == registry.bucketsByUrl[route] && registry.temporaryBucketsByUrl == old_temps) &&
        (choice == UseTemporary ==>
           bucket == old_temps[route] && registry.temporaryBucketsByUrl == old_temps) &&
        (choice == CreateTemporary ==>
           fresh(bucket) && bucket.id == route && added && bucket.Jobs() == [request] &&
           registry.temporaryBucketsByUrl == old_temps[route := bucket])
      ensures forall c :: c in old(registry.Repr) && c != bucket ==>
        c.waiting == old(c.waiting) && c.running == old(c.running) && c.done == old(c.done)
    {
      request := items[0];
      bucket, added := registry.AdmitForUrl(request, request.id - 1);
      items := items[1..];
      started := request.id;
      assert ItemsOk();
    }

    /**
     * The running job of a bucket ends: the bucket starts its next job
     * unless paused, and the handler's finishedAll listener runs when the
     * bucket goes idle.
     */
    method JobDone(bucket: BucketAsync.AsyncBucket, now: int) returns (events: seq<Event>)
      requires Valid() && registry.Holds(bucket) && bucket.running.Some?
      modifies this`invalidRequestsCount, this`paused, this`queueBlockTimer
      modifies registry, registry.Repr`blockedUntil, registry.Repr`paused, registry.Repr`waiting
      modifies bucket`running, bucket`done
      ensures Valid() && events == [] && paused == old(paused)
      ensures invalidRequestsCount == old(invalidRequestsCount) && queueBlockTimer == old(queueBlockTimer) &&
        registry.Repr == old(registry.Repr)
      ensures bucket.done == old(bucket.done) + [old(bucket.running).value]
      ensures !old(bucket.paused) && old(bucket.waiting) != [] ==>
        bucket.running == Some(old(bucket.waiting)[0]) && bucket.waiting == old(bucket.waiting)[1..]
      ensures old(bucket.paused) || old(bucket.waiting) == [] ==>
        bucket.running == None && bucket.waiting == old(bucket.waiting)
      ensures registry.buckets == old(registry.buckets) && registry.bucketsByUrl == old(registry.bucketsByUrl)
      ensures forall b :: b in registry.Repr && !registry.IsPermanent(b) ==>
        b.blockedUntil == old(b.blockedUntil) && b.paused == old(b.paused)
      ensures var drained := old(bucket.waiting) == [] && bucket.id in old(registry.pendingRemovals) &&
                             old(registry.temporaryBucketsByUrl[bucket.id]) == bucket;
        registry.temporaryBucketsByUrl ==
          (if drained then old(registry.temporaryBucketsByUrl) - {bucket.id} else old(registry.temporaryBucketsByUrl)) &&
        registry.pendingRemovals ==
          (if drained then old(registry.pendingRemovals) - {bucket.id} else old(registry.pendingRemovals)) &&
        forall k :: k in registry.buckets ==>
          var b := registry.buckets[k];
          if drained && IsBlockedAt(old(bucket.blockedUntil), now) && b in old(registry.pendingRemovals[bucket.id])
          then b.blockedUntil == old(bucket.blockedUntil) && b.paused
          else b.blockedUntil == old(b.blockedUntil) && b.paused == old(b.paused)
    {
      assert bucket in registry.Repr;
      var emitted := registry.JobDone(bucket);
      events := [];
      if emitted == [BucketAsync.FinishedAll] {
        events := OnBucketEvent(bucket, BucketAsync.FinishedAll, now);
      }
    }
  }
}
