/**
 * The compiled handler of src/RESTHandler.js. It shares the registry of
 * the TypeScript handler but runs every request through a p-queue: fetch
 * resolves the bucket at once and queues a job that enqueues the request
 * into that bucket later, and a global block pauses the p-queue instead
 * of making fetch wait.
 */
module RestHandlerJs {
  import opened Wrappers
  import opened Policy
  import opened Requests
  import Bucket
  import Registry

  /** What the handler emits to its own listeners. */
  datatype Event =
    | RateLimit(requestId: nat, durationMs: int)
    | GlobalRateLimit(requestId: nat, durationMs: int)
    | CloudflareRateLimit(requestId: nat, durationMs: int)
    | InvalidRequest(requestId: nat, countSoFar: int)
    | InvalidRequestsThreshold(count: int)

  /** The options that decide the policy; None is an absent option. */
  datatype Options = Options(invalidRequestsThreshold: Option<int>,
                             delayOnInvalidThreshold: Option<bool>,
                             globalBlockDurationMultiple: Option<int>)

  /** A p-queue job: enqueue the request into the bucket chosen when it was queued. */
  datatype Job = Job(request: ApiRequest, bucket: Bucket.Bucket)

  class RestHandlerJs {
    const registry: Registry.Registry
    const counter: IdCounter
    var invalidRequestsCount: int
    const invalidRequestsThreshold: int
    const globalBlockDurationMultiple: int
    /** Whether the ten-minute interval that resets the invalid-request count runs. */
    const resetsInvalidCount: bool
    /** The p-queue: whether it is paused, and its jobs not yet started, oldest first. */
    var paused: bool
    var jobs: seq<Job>
    /** When the pending queueBlockTimer restarts the p-queue. */
    var restartAt: Option<int>

    /** The largest request id a bucket has admitted so far. */
    ghost var started: nat

    /**
     * The p-queue is first in, first out and every request id is handed
     * out by fetch: the queued jobs carry the ids after the last one
     * started, in order, and name buckets of the registry.
     */
    ghost predicate JobsOk()
      reads this`jobs, this`started, counter, registry`Repr
    {
      started + |jobs| == counter.lastId &&
      forall i :: 0 <= i < |jobs| ==> jobs[i].request.id == started + 1 + i && jobs[i].bucket in registry.Repr
    }

    ghost predicate Valid()
      reads this`jobs, this`started, registry, counter
      reads registry.Repr`listeners, registry.Repr`released, registry.Repr`finished,
            registry.Repr`admitted, registry.Repr`queue, registry.Repr`completions
    {
      registry.Valid() && registry.AdmittedAtMost(started) && JobsOk()
    }

    /**
     * Threshold and multiple default when absent or 0; the reset interval
     * runs unless the option turns the delay off.
     */
    constructor (options: Options, counter: IdCounter)
      ensures this.counter == counter && fresh(registry) && Valid()
      ensures registry.temporaryBucketsByUrl == map[] && registry.buckets == map[] && registry.bucketsByUrl == map[]
      ensures invalidRequestsThreshold == OrDefault(options.invalidRequestsThreshold, DefaultInvalidRequestsThreshold)
      ensures globalBlockDurationMultiple ==
        OrDefault(options.globalBlockDurationMultiple, DefaultGlobalBlockDurationMultiple)
      ensures resetsInvalidCount <==> options.delayOnInvalidThreshold != Some(false)
      ensures invalidRequestsCount == 0 && !paused && jobs == [] && restartAt == None
    {
      registry := new Registry.Registry();
      this.counter := counter;
      invalidRequestsCount := 0;
      invalidRequestsThreshold := OrDefault(options.invalidRequestsThreshold, DefaultInvalidRequestsThreshold);
      globalBlockDurationMultiple :=
        OrDefault(options.globalBlockDurationMultiple, DefaultGlobalBlockDurationMultiple);
      resetsInvalidCount := options.delayOnInvalidThreshold != Some(false);
      paused := false;
      jobs := [];
      restartAt := None;
      started := counter.lastId;
    }

    /** One tick of the ten-minute interval. */
    method IntervalTick()
      modifies this`invalidRequestsCount
      ensures invalidRequestsCount == if resetsInvalidCount then 0 else old(invalidRequestsCount)
    {
      if resetsInvalidCount {
        invalidRequestsCount := 0;
      }
    }

    /**
     * Every permanent bucket is held until at least durationMs from now,
     * the p-queue pauses, and a restart is due durationMs from now,
     * replacing any earlier one. The duration arrives already scaled.
     */
    method BlockGloballyByDuration(durationMs: int, now: int)
      requires Valid()
      modifies this`paused, this`restartAt, registry.Repr`blockedUntil
      ensures Valid() && paused && restartAt == Some(now + durationMs)
      ensures forall k :: k in registry.buckets ==>
        registry.buckets[k].blockedUntil == GlobalDeadline(old(registry.buckets[k].blockedUntil), now, durationMs)
      ensures forall r :: r in registry.temporaryBucketsByUrl ==>
        registry.temporaryBucketsByUrl[r].blockedUntil == old(registry.temporaryBucketsByUrl[r].blockedUntil)
      ensures forall b :: b in registry.Repr && !registry.IsPermanent(b) ==> b.blockedUntil == old(b.blockedUntil)
    {
      registry.BlockBucketsByDuration(durationMs, now);
      paused := true;
      restartAt := Some(now + durationMs);
    }

    /** The queueBlockTimer fires: the p-queue starts again. */
    method RestartTimerFires()
      requires restartAt.Some?
      modifies this`paused, this`restartAt
      ensures !paused && restartAt == None
    {
      paused := false;
      restartAt := None;
    }

    /**
     * One more invalid request; the one that makes the count equal the
     * threshold blocks globally for ten minutes, unscaled, and announces
     * the count.
     */
    method IncreaseInvalidRequestCount(now: int) returns (events: seq<Event>)
      requires Valid()
      modifies this`invalidRequestsCount, this`paused, this`restartAt, registry.Repr`blockedUntil
      ensures Valid()
      ensures var (count, hit) := CountInvalid(old(invalidRequestsCount), invalidRequestsThreshold);
        invalidRequestsCount == count &&
        (hit ==>
          events == [InvalidRequestsThreshold(count)] && paused && restartAt == Some(now + TenMinutesMs) &&
          forall k :: k in registry.buckets ==>
            registry.buckets[k].blockedUntil == GlobalDeadline(old(registry.buckets[k].blockedUntil), now, TenMinutesMs)) &&
        (!hit ==>
          events == [] && paused == old(paused) && restartAt == old(restartAt) &&
          forall k :: k in registry.buckets ==> registry.buckets[k].blockedUntil == old(registry.buckets[k].blockedUntil))
      ensures forall b :: b in registry.Repr && !registry.IsPermanent(b) ==> b.blockedUntil == old(b.blockedUntil)
    {
      invalidRequestsCount := invalidRequestsCount + 1;
      if invalidRequestsCount == invalidRequestsThreshold {
        BlockGloballyByDuration(TenMinutesMs, now);
        events := [InvalidRequestsThreshold(invalidRequestsCount)];
      } else {
        events := [];
      }
    }

    /**
     * The listeners on a bucket: a recognised bucket id goes to the
     * registry; a global or Cloudflare limit is scaled by the multiple,
     * blocks globally and is passed on with the scaled duration; a bucket
     * limit is passed on; an invalid request is counted and passed on with
     * the count; finishedAll of a temporary bucket with a scheduled removal
     * retires it.
     */
    method OnBucketEvent(source: Bucket.Bucket, e: Bucket.Event, now: int) returns (events: seq<Event>)
      requires Valid() && registry.Holds(source)
      modifies this`invalidRequestsCount, this`paused, this`restartAt
      modifies registry, registry.Repr`blockedUntil
      ensures Valid() && fresh(registry.Repr - old(registry.Repr))
      ensures !(e.GlobalRateLimit? || e.CloudflareRateLimit? || e.InvalidRequest?) ==>
        invalidRequestsCount == old(invalidRequestsCount) && paused == old(paused) && restartAt == old(restartAt)
      ensures !e.RecognizeUrlBucket? ==> registry.Repr == old(registry.Repr)
      ensures !e.RecognizeUrlBucket? && !e.FinishedAll? ==>
        registry.temporaryBucketsByUrl == old(registry.temporaryBucketsByUrl) &&
        registry.buckets == old(registry.buckets) && registry.bucketsByUrl == old(registry.bucketsByUrl) &&
        registry.pendingRemovals == old(registry.pendingRemovals)
      ensures e.RecognizeUrlBucket? || e.RateLimit? ==>
        forall b :: b in old(registry.Repr) ==> b.blockedUntil == old(b.blockedUntil)
      ensures forall b :: b in old(registry.Repr) && !old(registry.IsPermanent(b)) ==> b.blockedUntil == old(b.blockedUntil)
      ensures e.RecognizeUrlBucket? ==>
        events == [] && paused == old(paused) && invalidRequestsCount == old(invalidRequestsCount) &&
        registry.temporaryBucketsByUrl == old(registry.temporaryBucketsByUrl) &&
        e.bucketId in registry.buckets && e.url in registry.bucketsByUrl &&
        match Recognize(e.bucketId in old(registry.buckets), e.url in old(registry.bucketsByUrl))
        case CreatePermanent =>
          var b := registry.buckets[e.bucketId];
          fresh(b) && b.id == e.bucketId && b.queue == [] && b.admitted == {} &&
          registry.buckets == old(registry.buckets)[e.bucketId := b] &&
          registry.bucketsByUrl == old(registry.bucketsByUrl)[e.url := b] &&
          registry.pendingRemovals ==
            if e.url in registry.temporaryBucketsByUrl
            then old(registry.pendingRemovals)[e.url := old(registry.Scheduled(e.url)) + [b]]
            else old(registry.pendingRemovals)
        case MapRoute =>
          registry.buckets == old(registry.buckets) &&
          registry.bucketsByUrl == old(registry.bucketsByUrl)[e.url := registry.buckets[e.bucketId]] &&
          registry.pendingRemovals == old(registry.pendingRemovals)
        case Nothing =>
          registry.buckets == old(registry.buckets) && registry.bucketsByUrl == old(registry.bucketsByUrl) &&
          registry.pendingRemovals == old(registry.pendingRemovals)
      ensures e.RateLimit? ==> events == [RateLimit(e.requestId, e.durationMs)] && paused == old(paused)
      ensures e.GlobalRateLimit? || e.CloudflareRateLimit? ==>
        var scaled := e.durationMs * globalBlockDurationMultiple;
        events == [if e.GlobalRateLimit? then GlobalRateLimit(e.requestId, scaled)
                   else CloudflareRateLimit(e.requestId, scaled)] &&
        paused && restartAt == Some(now + scaled) && invalidRequestsCount == old(invalidRequestsCount) &&
        registry.buckets == old(registry.buckets) &&
        registry.temporaryBucketsByUrl == old(registry.temporaryBucketsByUrl) &&
        (forall k :: k in registry.buckets ==>
          registry.buckets[k].blockedUntil == GlobalDeadline(old(registry.buckets[k].blockedUntil), now, scaled)) &&
        (forall r :: r in registry.temporaryBucketsByUrl ==>
          registry.temporaryBucketsByUrl[r].blockedUntil == old(registry.temporaryBucketsByUrl[r].blockedUntil))
      ensures e.InvalidRequest? ==>
        var hit := invalidRequestsCount == invalidRequestsThreshold;
        invalidRequestsCount == old(invalidRequestsCount) + 1 &&
        events == (if hit then [InvalidRequestsThreshold(invalidRequestsCount)] else []) +
                  [InvalidRequest(e.requestId, invalidRequestsCount)] &&
        (hit ==> paused && restartAt == Some(now + TenMinutesMs)) &&
        (!hit ==> paused == old(paused) && restartAt == old(restartAt)) &&
        registry.buckets == old(registry.buckets) &&
        (forall k :: k in registry.buckets ==>
          registry.buckets[k].blockedUntil ==
            if hit then GlobalDeadline(old(registry.buckets[k].blockedUntil), now, TenMinutesMs)
            else old(registry.buckets[k].blockedUntil))
      ensures e.FinishedAll? ==>
        var drained := source.id in old(registry.pendingRemovals) &&
                       old(registry.temporaryBucketsByUrl[source.id]) == source;
        events == [] && paused == old(paused) && registry.Repr == old(registry.Repr) &&
        registry.buckets == old(registry.buckets) && registry.bucketsByUrl == old(registry.bucketsByUrl) &&
        registry.temporaryBucketsByUrl ==
          (if drained then old(registry.temporaryBucketsByUrl) - {source.id} else old(registry.temporaryBucketsByUrl)) &&
        registry.pendingRemovals ==
          (if drained then old(registry.pendingRemovals) - {source.id} else old(registry.pendingRemovals)) &&
        forall k :: k in registry.buckets ==>
          registry.buckets[k].blockedUntil ==
            if drained && IsBlockedAt(old(source.blockedUntil), now) &&
               registry.buckets[k] in old(registry.pendingRemovals[source.id])
            then old(source.blockedUntil)
            else old(registry.buckets[k].blockedUntil)
    {
      match e
      case RecognizeUrlBucket(url, bucketId) =>
        registry.RecognizeUrlBucket(url, bucketId);
        events := [];
      case RateLimit(requestId, durationMs) =>
        events := [RateLimit(requestId, durationMs)];
      case GlobalRateLimit(_, _) | CloudflareRateLimit(_, _) =>
        var scaled := e.durationMs * globalBlockDurationMultiple;
        BlockGloballyByDuration(scaled, now);
        var requestId := e.requestId;
        events := [if e.GlobalRateLimit? then GlobalRateLimit(requestId, scaled) else CloudflareRateLimit(requestId, scaled)];
      case InvalidRequest(requestId) =>
        events := IncreaseInvalidRequestCount(now);
        events := events + [InvalidRequest(requestId, invalidRequestsCount)];
      case FinishedAll =>
        if source.id in registry.pendingRemovals && registry.temporaryBucketsByUrl[source.id] == source {
          registry.TemporaryBucketDrained(source.id, now);
        }
        events := [];
    }

    /**
     * fetch: a new request, the bucket getBucketForUrl chooses for its
     * route now, and a p-queue job that will enqueue the one into the
     * other.
     */
    method Fetch(route: string) returns (request: ApiRequest, bucket: Bucket.Bucket)
      requires Valid()
      modifies counter, registry`temporaryBucketsByUrl, registry`Repr, this`jobs
      ensures Valid() && registry.Holds(bucket) && fresh(registry.Repr - old(registry.Repr))
      ensures fresh(request) && request.route == route && request.id == counter.lastId == old(counter.lastId) + 1
      ensures jobs == old(jobs) + [Job(request, bucket)]
      ensures registry.buckets == old(registry.buckets) && registry.bucketsByUrl == old(registry.bucketsByUrl)
      ensures var old_temps := old(registry.temporaryBucketsByUrl);
        var choice := ChooseBucket(route in registry.bucketsByUrl, route in old_temps,
                                   route in old_temps && old(old_temps[route].HasPendingRequests()));
        (choice == UsePermanent ==>
           bucket == registry.bucketsByUrl[route] && registry.temporaryBucketsByUrl == old_temps) &&
        (choice == UseTemporary ==>
           bucket == old_temps[route] && registry.temporaryBucketsByUrl == old_temps) &&
        (choice == CreateTemporary ==>
           fresh(bucket) && bucket.id == route && bucket.queue == [] &&
           registry.temporaryBucketsByUrl == old_temps[route := bucket])
    {
      bucket := registry.GetBucketForUrl(route);
      assert registry.AdmittedAtMost(started) && bucket in registry.Repr;
      request := new ApiRequest(route, counter);
      jobs := jobs + [Job(request, bucket)];
      assert JobsOk();
    }

    /**
     * The p-queue starts its oldest job: the request joins the queue of the
     * bucket chosen when it was fetched, whether or not the registry still
     * holds that bucket (as written, see OrphanedJob).
     */
    method RunNextJob() returns (request: ApiRequest, bucket: Bucket.Bucket)
      requires Valid() && !paused && jobs != []
      modifies this`jobs, this`started, registry.Repr`queue, registry.Repr`listeners, registry.Repr`released, registry.Repr`admitted
      ensures Valid()
      ensures request == old(jobs[0].request) && bucket == old(jobs[0].bucket) && jobs == old(jobs[1..])
      ensures bucket.queue == old(bucket.queue) + [request]
      ensures old(bucket.queue) == [] ==> request.id in bucket.released
      ensures forall c :: c in old(registry.Repr) && c != bucket ==>
        c.queue == old(c.queue) && c.listeners == old(c.listeners) &&
        c.released == old(c.released) && c.admitted == old(c.admitted)
    {
      request := jobs[0].request;
      bucket := jobs[0].bucket;
      registry.Admit(bucket, request, request.id - 1);
      jobs := jobs[1..];
      started := request.id;
    }

    /**
     * The corrected job: the bucket is chosen when the job starts, as the
     * asynchronous handler's worker does, so the request always joins a
     * bucket the registry holds and listens to.
     */
    method RunNextJobFixed() returns (request: ApiRequest, bucket: Bucket.Bucket)
      requires Valid() && !paused && jobs != []
      modifies this`jobs, this`started, registry`temporaryBucketsByUrl, registry`Repr
      modifies registry.Repr`queue, registry.Repr`listeners, registry.Repr`released, registry.Repr`admitted
      ensures Valid() && registry.Holds(bucket)
      ensures request == old(jobs[0].request) && jobs == old(jobs[1..])
      ensures |bucket.queue| > 0 && bucket.queue[|bucket.queue| - 1] == request
      ensures var old_temps := old(registry.temporaryBucketsByUrl);
        var route := request.route;
        var choice := ChooseBucket(route in registry.bucketsByUrl, route in old_temps,
                                   route in old_temps && old(old_temps[route].HasPendingRequests()));
        (choice == UsePermanent ==>
           bucket == registry.bucketsByUrl[route] && bucket.queue == old(bucket.queue) + [request] &&
           registry.temporaryBucketsByUrl == old_temps) &&
        (choice == UseTemporary ==>
           bucket == old_temps[route] && bucket.queue == old(bucket.queue) + [request] &&
           registry.temporaryBucketsByUrl == old_temps) &&
        (choice == CreateTemporary ==>
           fresh(bucket) && bucket.id == route && bucket.queue == [request] &&
           registry.temporaryBucketsByUrl == old_temps[route := bucket])
      ensures forall c :: c in old(registry.Repr) && c != bucket ==>
        c.queue == old(c.queue) && c.listeners == old(c.listeners) &&
        c.released == old(c.released) && c.admitted == old(c.admitted)
    {
      request := jobs[0].request;
      bucket := registry.AdmitForUrl(request, request.id - 1);
      jobs := jobs[1..];
      started := request.id;
    }

    /**
     * The end of a request in its bucket (enqueue's promise as written, see
     * Bucket.Bucket.Settle): a resolved request leaves the queue, and when
     * that empties it the finishedAll listener retires a temporary bucket
     * with a scheduled removal, handing its block over.
     */
    method FinishRequest(bucket: Bucket.Bucket, request: ApiRequest, resolved: bool, now: int)
      returns (events: seq<Event>)
      requires Valid() && registry.Holds(bucket) && request.id in bucket.released
      modifies this`invalidRequestsCount, this`paused, this`restartAt
      modifies registry, registry.Repr`blockedUntil
      modifies bucket`queue, bucket`listeners, bucket`released, bucket`finished, bucket`completions
      ensures Valid() && events == [] && paused == old(paused) && registry.Repr == old(registry.Repr)
      ensures invalidRequestsCount == old(invalidRequestsCount) && restartAt == old(restartAt)
      ensures bucket.queue == if resolved then Bucket.Without(old(bucket.queue), request.id) else old(bucket.queue)
      ensures forall b :: b in registry.Repr && !registry.IsPermanent(b) ==> b.blockedUntil == old(b.blockedUntil)
      ensures var drained := resolved && bucket.queue == [] && bucket.id in old(registry.pendingRemovals) &&
                             old(registry.temporaryBucketsByUrl[bucket.id]) == bucket;
        registry.buckets == old(registry.buckets) && registry.bucketsByUrl == old(registry.bucketsByUrl) &&
        registry.temporaryBucketsByUrl ==
          (if drained then old(registry.temporaryBucketsByUrl) - {bucket.id} else old(registry.temporaryBucketsByUrl)) &&
        registry.pendingRemovals ==
          (if drained then old(registry.pendingRemovals) - {bucket.id} else old(registry.pendingRemovals)) &&
        forall k :: k in registry.buckets ==>
          registry.buckets[k].blockedUntil ==
            if drained && IsBlockedAt(old(bucket.blockedUntil), now) &&
               registry.buckets[k] in old(registry.pendingRemovals[bucket.id])
            then old(bucket.blockedUntil)
            else old(registry.buckets[k].blockedUntil)
    {
      assert bucket in registry.Repr;
      var emitted := registry.Complete(bucket, request, resolved);
      events := [];
      if emitted == [Bucket.FinishedAll] {
        events := OnBucketEvent(bucket, Bucket.FinishedAll, now);
      }
    }
  }

  /**
   * From a fresh handler: a fetch whose job starts at once, so its request
   * runs in a new temporary bucket, then a second fetch for the same route
   * whose job waits in the p-queue (paused by a global block, or held back
   * by its interval cap) with that temporary bucket chosen for it.
   */
  method QueueBehindRunning(handler: RestHandlerJs, route: string)
    returns (temp: Bucket.Bucket, first: ApiRequest, second: ApiRequest)
    requires handler.Valid() && !handler.paused && handler.jobs == []
    requires handler.registry.temporaryBucketsByUrl == map[] && handler.registry.buckets == map[]
    requires handler.registry.bucketsByUrl == map[]
    modifies handler, handler.registry, handler.counter, handler.registry.Repr
    ensures handler.Valid() && !handler.paused && handler.jobs == [Job(second, temp)]
    ensures fresh(handler.registry.Repr - old(handler.registry.Repr))
    ensures temp.id == route && temp.queue == [first] && first.id in temp.released && second.route == route
    ensures route in handler.registry.temporaryBucketsByUrl && handler.registry.temporaryBucketsByUrl[route] == temp
    ensures handler.registry.buckets == map[] && handler.registry.bucketsByUrl == map[]
  {
    first, temp := handler.Fetch(route);
    var _, _ := handler.RunNextJob();
    var chosen;
    second, chosen := handler.Fetch(route);
  }

  /**
   * Then the first response names the route's bucket and the first
   * request finishes, so the temporary bucket drains, hands over and
   * leaves the registry while the second job still waits.
   */
  method DrainWhileQueued(handler: RestHandlerJs, route: string, bucketId: string)
    returns (temp: Bucket.Bucket, second: ApiRequest)
    requires handler.Valid() && !handler.paused && handler.jobs == []
    requires handler.registry.temporaryBucketsByUrl == map[] && handler.registry.buckets == map[]
    requires handler.registry.bucketsByUrl == map[]
    modifies handler, handler.registry, handler.counter, handler.registry.Repr
    ensures handler.Valid() && !handler.paused && handler.jobs == [Job(second, temp)]
    ensures fresh(handler.registry.Repr - old(handler.registry.Repr))
    ensures temp.queue == [] && second.route == route
    ensures !handler.registry.Holds(temp) && route in handler.registry.bucketsByUrl
    ensures route !in handler.registry.temporaryBucketsByUrl
  {
    var first;
    temp, first, second := QueueBehindRunning(handler, route);
    var _ := handler.OnBucketEvent(temp, Bucket.RecognizeUrlBucket(route, bucketId), 0);
    var _ := handler.FinishRequest(temp, first, true, 0);
  }

  /**
   * After that run the waiting job enqueues its request into the retired
   * temporary bucket, where no listener hears its events and no other
   * request of the route waits for it.
   */
  method OrphanedJob(handler: RestHandlerJs, route: string, bucketId: string) returns (orphaned: bool)
    requires handler.Valid() && !handler.paused && handler.jobs == []
    requires handler.registry.temporaryBucketsByUrl == map[] && handler.registry.buckets == map[]
    requires handler.registry.bucketsByUrl == map[]
    modifies handler, handler.registry, handler.counter, handler.registry.Repr
    ensures orphaned
  {
    var temp, second := DrainWhileQueued(handler, route, bucketId);
    var request, bucket := handler.RunNextJob();
    orphaned := request == second && bucket == temp && bucket.queue == [second] && !handler.registry.Holds(bucket);
  }

  /** The same run with the corrected job: the late request joins the route's permanent bucket. */
  method OrphanedJobFixed(handler: RestHandlerJs, route: string, bucketId: string) returns (held: bool)
    requires handler.Valid() && !handler.paused && handler.jobs == []
    requires handler.registry.temporaryBucketsByUrl == map[] && handler.registry.buckets == map[]
    requires handler.registry.bucketsByUrl == map[]
    modifies handler, handler.registry, handler.counter, handler.registry.Repr
    ensures held
  {
    var temp, second := DrainWhileQueued(handler, route, bucketId);
    var request, bucket := handler.RunNextJobFixed();
    held := request == second && bucket == handler.registry.bucketsByUrl[route] && handler.registry.Holds(bucket);
  }
}
