/**
 * The entry point for requests of src/RESTHandler.ts: it routes each
 * request to a bucket of its registry, counts invalid requests, and holds
 * every permanent bucket (and later fetches) during a global block.
 * Bucket events reach the handler through OnBucketEvent, the listeners the
 * handler registers on every bucket it creates.
 */
module RestHandler {
  import opened Wrappers
  import opened Policy
  import opened Requests
  import Bucket
  import Registry

  /** What the handler emits to its own listeners. */
  datatype Event =
    | GlobalBlock(blockType: GlobalBlockType, durationMs: int)
    | GlobalRestore(blockType: GlobalBlockType)
    | RateLimit(requestId: nat, durationMs: int)
    | InvalidRequest(requestId: nat, countSoFar: int)

  /** The options (RESTHandlerOptions) that decide the policy; None is an absent option. */
  datatype Options = Options(invalidRequestsThreshold: Option<int>,
                             delayOnInvalidThreshold: Option<bool>,
                             globalBlockDurationMultiple: Option<int>)

  /** The pending queueBlockTimer: the block it ends and when it fires. */
  datatype Timer = Timer(blockType: GlobalBlockType, firesAt: int)

  class RestHandler {
    const registry: Registry.Registry
    /** APIRequest.lastId, shared by every request. */
    const counter: IdCounter
    var invalidRequestsCount: int
    const invalidRequestsThreshold: int
    const globalBlockDurationMultiple: int
    /** Whether the ten-minute interval that resets the invalid-request count runs. */
    const resetsInvalidCount: bool
    var globallyBlockedUntil: Option<int>
    var queueBlockTimer: Option<Timer>

    /** The registry is sound and every admitted request id has been handed out by the counter. */
    ghost predicate Valid()
      reads registry, counter
      reads registry.Repr`listeners, registry.Repr`released, registry.Repr`finished,
            registry.Repr`admitted, registry.Repr`queue, registry.Repr`completions
    {
      registry.Valid() && registry.AdmittedAtMost(counter.lastId)
    }

    /**
     * Threshold and multiple default when absent or 0; the count is reset
     * every ten minutes unless the environment is the test one or the
     * option turns the delay off.
     */
    constructor (options: Options, nodeEnvIsTest: bool, counter: IdCounter)
      ensures this.counter == counter && fresh(registry) && Valid()
      ensures registry.temporaryBucketsByUrl == map[] && registry.buckets == map[] && registry.bucketsByUrl == map[]
      ensures invalidRequestsThreshold == OrDefault(options.invalidRequestsThreshold, DefaultInvalidRequestsThreshold)
      ensures globalBlockDurationMultiple ==
        OrDefault(options.globalBlockDurationMultiple, DefaultGlobalBlockDurationMultiple)
      ensures resetsInvalidCount <==> !nodeEnvIsTest && options.delayOnInvalidThreshold != Some(false)
      ensures invalidRequestsCount == 0 && globallyBlockedUntil == None && queueBlockTimer == None
    {
      registry := new Registry.Registry();
      this.counter := counter;
      invalidRequestsCount := 0;
      invalidRequestsThreshold := OrDefault(options.invalidRequestsThreshold, DefaultInvalidRequestsThreshold);
      globalBlockDurationMultiple :=
        OrDefault(options.globalBlockDurationMultiple, DefaultGlobalBlockDurationMultiple);
      resetsInvalidCount := !nodeEnvIsTest && options.delayOnInvalidThreshold != Some(false);
      globallyBlockedUntil := None;
      queueBlockTimer := None;
    }

    /** One tick of the ten-minute interval: the count starts again from 0 when the interval runs. */
    method IntervalTick()
      modifies this`invalidRequestsCount
      ensures invalidRequestsCount == if resetsInvalidCount then 0 else old(invalidRequestsCount)
    {
      if resetsInvalidCount {
        invalidRequestsCount := 0;
      }
    }

    /**
     * A global block of durationMs scaled by the multiple: every permanent
     * bucket is held until at least the end of the scaled block (the later
     * deadline wins), later fetches wait until then, and the restore timer
     * is replaced by one for this block.
     */
    method BlockGloballyByDuration(durationMs: int, blockType: GlobalBlockType, now: int) returns (events: seq<Event>)
      requires Valid()
      modifies this`globallyBlockedUntil, this`queueBlockTimer, registry.Repr`blockedUntil
      ensures Valid()
      ensures var scaled := durationMs * globalBlockDurationMultiple;
        globallyBlockedUntil == Some(now + scaled) && queueBlockTimer == Some(Timer(blockType, now + scaled)) &&
        events == [GlobalBlock(blockType, scaled)] &&
        (forall k :: k in registry.buckets ==>
          registry.buckets[k].blockedUntil == GlobalDeadline(old(registry.buckets[k].blockedUntil), now, scaled))
      ensures forall r :: r in registry.temporaryBucketsByUrl ==>
        registry.temporaryBucketsByUrl[r].blockedUntil == old(registry.temporaryBucketsByUrl[r].blockedUntil)
      ensures forall b :: b in registry.Repr && !registry.IsPermanent(b) ==> b.blockedUntil == old(b.blockedUntil)
    {
      var scaled := durationMs * globalBlockDurationMultiple;
      registry.BlockBucketsByDuration(scaled, now);
      globallyBlockedUntil := Some(now + scaled);
      queueBlockTimer := Some(Timer(blockType, now + scaled));
      events := [GlobalBlock(blockType, scaled)];
    }

    /** The restore timer fires: the global block is over and its type is announced. */
    method QueueBlockTimerFires() returns (events: seq<Event>)
      requires queueBlockTimer.Some?
      modifies this`globallyBlockedUntil, this`queueBlockTimer
      ensures globallyBlockedUntil == None && queueBlockTimer == None
      ensures events == [GlobalRestore(old(queueBlockTimer).value.blockType)]
    {
      events := [GlobalRestore(queueBlockTimer.value.blockType)];
      queueBlockTimer := None;
      globallyBlockedUntil := None;
    }

    /**
     * One more invalid request; the one that makes the count equal the
     * threshold starts a ten-minute INVALID_REQUEST global block.
     */
    method IncreaseInvalidRequestCount(now: int) returns (events: seq<Event>)
      requires Valid()
      modifies this`invalidRequestsCount, this`globallyBlockedUntil, this`queueBlockTimer, registry.Repr`blockedUntil
      ensures Valid()
      ensures var (count, hit) := CountInvalid(old(invalidRequestsCount), invalidRequestsThreshold);
        invalidRequestsCount == count &&
        (hit ==>
          var scaled := TenMinutesMs * globalBlockDurationMultiple;
          events == [GlobalBlock(InvalidRequestBlock, scaled)] && globallyBlockedUntil == Some(now + scaled) &&
          queueBlockTimer == Some(Timer(InvalidRequestBlock, now + scaled)) &&
          forall k :: k in registry.buckets ==>
            registry.buckets[k].blockedUntil == GlobalDeadline(old(registry.buckets[k].blockedUntil), now, scaled)) &&
        (!hit ==>
          events == [] && globallyBlockedUntil == old(globallyBlockedUntil) && queueBlockTimer == old(queueBlockTimer) &&
          forall k :: k in registry.buckets ==> registry.buckets[k].blockedUntil == old(registry.buckets[k].blockedUntil))
      ensures forall b :: b in registry.Repr && !registry.IsPermanent(b) ==> b.blockedUntil == old(b.blockedUntil)
    {
      invalidRequestsCount := invalidRequestsCount + 1;
      if invalidRequestsCount == invalidRequestsThreshold {
        events := BlockGloballyByDuration(TenMinutesMs, InvalidRequestBlock, now);
      } else {
        events := [];
      }
    }

    /**
     * The handler's listeners on a bucket it holds: a recognised bucket id
     * goes to the registry, a global or Cloudflare limit blocks globally, a
     * bucket limit is passed on, an invalid request is counted and passed on
     * with the count, and finishedAll from a temporary bucket with a
     * scheduled removal retires it.
     */
    method OnBucketEvent(source: Bucket.Bucket, e: Bucket.Event, now: int) returns (events: seq<Event>)
      requires Valid() && registry.Holds(source)
      modifies this`invalidRequestsCount, this`globallyBlockedUntil, this`queueBlockTimer
      modifies registry, registry.Repr`blockedUntil
      ensures Valid()
      ensures !(e.GlobalRateLimit? || e.CloudflareRateLimit? || e.InvalidRequest?) ==>
        invalidRequestsCount == old(invalidRequestsCount) && globallyBlockedUntil == old(globallyBlockedUntil) &&
        queueBlockTimer == old(queueBlockTimer)
      ensures !e.RecognizeUrlBucket? ==> registry.Repr == old(registry.Repr)
      ensures !e.RecognizeUrlBucket? && !e.FinishedAll? ==>
        registry.temporaryBucketsByUrl == old(registry.temporaryBucketsByUrl) &&
        registry.buckets == old(registry.buckets) && registry.bucketsByUrl == old(registry.bucketsByUrl) &&
        registry.pendingRemovals == old(registry.pendingRemovals)
      ensures e.RecognizeUrlBucket? || e.RateLimit? ==>
        forall b :: b in old(registry.Repr) ==> b.blockedUntil == old(b.blockedUntil)
      ensures forall b :: b in old(registry.Repr) && !old(registry.IsPermanent(b)) ==> b.blockedUntil == old(b.blockedUntil)
      ensures e.RecognizeUrlBucket? ==>
        events == [] && invalidRequestsCount == old(invalidRequestsCount) &&
        globallyBlockedUntil == old(globallyBlockedUntil) &&
        registry.temporaryBucketsByUrl == old(registry.temporaryBucketsByUrl) &&
        e.bucketId in registry.buckets && e.url in registry.bucketsByUrl &&
        match Recognize(e.bucketId in old(registry.buckets), e.url in old(registry.bucketsByUrl))
        case CreatePermanent =>
          var b := registry.buckets[e.bucketId];
          fresh(b) && b.id == e.bucketId && b.queue == [] && b.admitted == {} &&
          registry.buckets == old(registry.buckets)[e.bucketId := b] &&
          registry.bucketsByUrl == old(registry.bucketsByUrl)[e.url := b] &&
          registry.pendingRemovals ==
            if e.url in registry.temporaryBucketsByUrl
            then old(registry.pendingRemovals)[e.url := old(registry.Scheduled(e.url)) + [b]]
            else old(registry.pendingRemovals)
        case MapRoute =>
          registry.buckets == old(registry.buckets) &&
          registry.bucketsByUrl == old(registry.bucketsByUrl)[e.url := registry.buckets[e.bucketId]] &&
          registry.pendingRemovals == old(registry.pendingRemovals)
        case Nothing =>
          registry.buckets == old(registry.buckets) && registry.bucketsByUrl == old(registry.bucketsByUrl) &&
          registry.pendingRemovals == old(registry.pendingRemovals)
      ensures e.RateLimit? ==>
        events == [RateLimit(e.requestId, e.durationMs)] && invalidRequestsCount == old(invalidRequestsCount) &&
        globallyBlockedUntil == old(globallyBlockedUntil)
      ensures e.GlobalRateLimit? || e.CloudflareRateLimit? ==>
        var scaled := e.durationMs * globalBlockDurationMultiple;
        var blockType := if e.GlobalRateLimit? then GlobalRateLimitBlock else CloudflareRateLimitBlock;
        events == [GlobalBlock(blockType, scaled)] && globallyBlockedUntil == Some(now + scaled) &&
        queueBlockTimer == Some(Timer(blockType, now + scaled)) &&
        invalidRequestsCount == old(invalidRequestsCount) &&
        registry.buckets == old(registry.buckets) &&
        registry.temporaryBucketsByUrl == old(registry.temporaryBucketsByUrl) &&
        (forall k :: k in registry.buckets ==>
          registry.buckets[k].blockedUntil == GlobalDeadline(old(registry.buckets[k].blockedUntil), now, scaled)) &&
        (forall r :: r in registry.temporaryBucketsByUrl ==>
          registry.temporaryBucketsByUrl[r].blockedUntil == old(registry.temporaryBucketsByUrl[r].blockedUntil))
      ensures e.InvalidRequest? ==>
        var scaled := TenMinutesMs * globalBlockDurationMultiple;
        var hit := invalidRequestsCount == invalidRequestsThreshold;
        invalidRequestsCount == old(invalidRequestsCount) + 1 &&
        events == (if hit then [GlobalBlock(InvalidRequestBlock, scaled)] else []) +
                  [InvalidRequest(e.requestId, invalidRequestsCount)] &&
        globallyBlockedUntil == (if hit then Some(now + scaled) else old(globallyBlockedUntil)) &&
        queueBlockTimer == (if hit then Some(Timer(InvalidRequestBlock, now + scaled)) else old(queueBlockTimer)) &&
        registry.buckets == old(registry.buckets) &&
        (forall k :: k in registry.buckets ==>
          registry.buckets[k].blockedUntil ==
            if hit then GlobalDeadline(old(registry.buckets[k].blockedUntil), now, scaled)
            else old(registry.buckets[k].blockedUntil))
      ensures e.FinishedAll? ==>
        var drained := source.id in old(registry.pendingRemovals) &&
                       old(registry.temporaryBucketsByUrl[source.id]) == source;
        events == [] &&
        registry.buckets == old(registry.buckets) && registry.bucketsByUrl == old(registry.bucketsByUrl) &&
        registry.temporaryBucketsByUrl ==
          (if drained then old(registry.temporaryBucketsByUrl) - {source.id} else old(registry.temporaryBucketsByUrl)) &&
        registry.pendingRemovals ==
          (if drained then old(registry.pendingRemovals) - {source.id} else old(registry.pendingRemovals)) &&
        forall k :: k in registry.buckets ==>
          registry.buckets[k].blockedUntil ==
            if drained && IsBlockedAt(old(source.blockedUntil), now) &&
               registry.buckets[k] in old(registry.pendingRemovals[source.id])
            then old(source.blockedUntil)
            else old(registry.buckets[k].blockedUntil)
    {
      match e
      case RecognizeUrlBucket(url, bucketId) =>
        registry.RecognizeUrlBucket(url, bucketId);
        events := [];
      case RateLimit(requestId, durationMs) =>
        events := [RateLimit(requestId, durationMs)];
      case GlobalRateLimit(_, _) | CloudflareRateLimit(_, _) =>
        var blockType := if e.GlobalRateLimit? then GlobalRateLimitBlock else CloudflareRateLimitBlock;
        events := BlockGloballyByDuration(e.durationMs, blockType, now);
      case InvalidRequest(requestId) =>
        events := IncreaseInvalidRequestCount(now);
        events := events + [InvalidRequest(requestId, invalidRequestsCount)];
      case FinishedAll =>
        if source.id in registry.pendingRemovals && registry.temporaryBucketsByUrl[source.id] == source {
          registry.TemporaryBucketDrained(source.id, now);
        }
        events := [];
    }

    /**
     * fetch: a new request waits out what is left of a global block
     * (waitedMs), then joins the queue of the bucket getBucketForUrl
     * chooses for its route.
     */
    method Fetch(route: string, now: int) returns (request: ApiRequest, bucket: Bucket.Bucket, waitedMs: int)
      requires Valid()
      modifies counter, registry`temporaryBucketsByUrl, registry`Repr
      modifies registry.Repr`queue, registry.Repr`listeners, registry.Repr`released, registry.Repr`admitted
      ensures Valid() && registry.Holds(bucket)
      ensures waitedMs ==
        if old(globallyBlockedUntil).Some? && old(globallyBlockedUntil).value - now > 0
        then old(globallyBlockedUntil).value - now else 0
      ensures fresh(request) && request.route == route && request.id == counter.lastId == old(counter.lastId) + 1
      ensures var url := route;
        var old_temps := old(registry.temporaryBucketsByUrl);
        var choice := ChooseBucket(url in registry.bucketsByUrl, url in old_temps,
                                   url in old_temps && old(old_temps[url].HasPendingRequests()));
        (choice == UsePermanent ==>
           bucket == registry.bucketsByUrl[url] && bucket.queue == old(bucket.queue) + [request] &&
           registry.temporaryBucketsByUrl == old_temps) &&
        (choice == UseTemporary ==>
           bucket == old_temps[url] && bucket.queue == old(bucket.queue) + [request] &&
           registry.temporaryBucketsByUrl == old_temps) &&
        (choice == CreateTemporary ==>
           fresh(bucket) && bucket.id == url && bucket.queue == [request] &&
           registry.temporaryBucketsByUrl == old_temps[url := bucket])
      ensures forall c :: c in old(registry.Repr) && c != bucket ==>
        c.queue == old(c.queue) && c.listeners == old(c.listeners) &&
        c.released == old(c.released) && c.admitted == old(c.admitted)
    {
      waitedMs := if globallyBlockedUntil.Some? && globallyBlockedUntil.value - now > 0
                  then globallyBlockedUntil.value - now else 0;
      ghost var before := counter.lastId;
      request := new ApiRequest(route, counter);
      bucket := registry.AdmitForUrl(request, before);
    }

    /**
     * The end of a request in its bucket (enqueue's promise as written, see
     * Bucket.Bucket.Settle): a resolved request leaves the queue, and when
     * that empties it the handler's finishedAll listener retires a
     * temporary bucket with a scheduled removal, handing its block over.
     */
    method FinishRequest(bucket: Bucket.Bucket, request: ApiRequest, resolved: bool, now: int)
      returns (events: seq<Event>)
      requires Valid() && registry.Holds(bucket) && request.id in bucket.released
      modifies this`invalidRequestsCount, this`globallyBlockedUntil, this`queueBlockTimer
      modifies registry, registry.Repr`blockedUntil
      modifies bucket`queue, bucket`listeners, bucket`released, bucket`finished, bucket`completions
      ensures Valid() && events == []
      ensures invalidRequestsCount == old(invalidRequestsCount) && globallyBlockedUntil == old(globallyBlockedUntil) &&
        queueBlockTimer == old(queueBlockTimer) && registry.Repr == old(registry.Repr)
      ensures bucket.queue == if resolved then Bucket.Without(old(bucket.queue), request.id) else old(bucket.queue)
      ensures forall b :: b in registry.Repr && !registry.IsPermanent(b) ==> b.blockedUntil == old(b.blockedUntil)
      ensures var drained := resolved && bucket.queue == [] && bucket.id in old(registry.pendingRemovals) &&
                             old(registry.temporaryBucketsByUrl[bucket.id]) == bucket;
        registry.buckets == old(registry.buckets) && registry.bucketsByUrl == old(registry.bucketsByUrl) &&
        registry.temporaryBucketsByUrl ==
          (if drained then old(registry.temporaryBucketsByUrl) - {bucket.id} else old(registry.temporaryBucketsByUrl)) &&
        registry.pendingRemovals ==
          (if drained then old(registry.pendingRemovals) - {bucket.id} else old(registry.pendingRemovals)) &&
        forall k :: k in registry.buckets ==>
          registry.buckets[k].blockedUntil ==
            if drained && IsBlockedAt(old(bucket.blockedUntil), now) &&
               registry.buckets[k] in old(registry.pendingRemovals[bucket.id])
            then old(bucket.blockedUntil)
            else old(registry.buckets[k].blockedUntil)
    {
      assert bucket in registry.Repr;
      var emitted := registry.Complete(bucket, request, resolved);
      events := [];
      if emitted == [Bucket.FinishedAll] {
        events := OnBucketEvent(bucket, Bucket.FinishedAll, now);
      }
    }
  }
}
