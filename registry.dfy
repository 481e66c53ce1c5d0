/**
 * The bucket registry shared by src/RESTHandler.ts and src/RESTHandler.js:
 * temporary buckets keyed by route, permanent buckets keyed by the id
 * Discord names, and the route-to-permanent-bucket map built as ids are
 * learned. A temporary bucket is retired once its queue drains after the
 * route's permanent bucket is known, handing its block over.
 */
module Registry {
  import opened Wrappers
  import opened Policy
  import opened Requests
  import Bucket

  class Registry {
    /** Route -> the temporary bucket whose id is the route itself. */
    var temporaryBucketsByUrl: map<string, Bucket.Bucket>
    /** Bucket id -> permanent bucket. */
    var buckets: map<string, Bucket.Bucket>
    /** Route -> the permanent bucket Discord named for it. */
    var bucketsByUrl: map<string, Bucket.Bucket>
    /**
     * Route -> the permanent buckets that the route's temporary bucket
     * hands its block to on its next finishedAll event (one "once" listener
     * per scheduled removal, in the order they were scheduled).
     */
    var pendingRemovals: map<string, seq<Bucket.Bucket>>
    /** Every bucket the registry has created. */
    ghost var Repr: set<Bucket.Bucket>

    /**
     * Temporary buckets are keyed by their own id (the route), permanent
     * ones by theirs, the two kinds never share an object, every route
     * mapping and every scheduled hand-over names a registered permanent
     * bucket, and only a route with a temporary bucket has removals
     * scheduled.
     */
    ghost predicate Shape()
      reads this
    {
      (forall r :: r in temporaryBucketsByUrl ==>
        temporaryBucketsByUrl[r].id == r && temporaryBucketsByUrl[r] in Repr) &&
      (forall k :: k in buckets ==> buckets[k].id == k && buckets[k] in Repr) &&
      (forall r :: r in bucketsByUrl ==> IsPermanent(bucketsByUrl[r])) &&
      (forall r :: r in temporaryBucketsByUrl ==> !IsPermanent(temporaryBucketsByUrl[r])) &&
      (forall r :: r in pendingRemovals ==> r in temporaryBucketsByUrl && AllPermanent(pendingRemovals[r]))
    }

    /** The bucket is the permanent bucket registered under its id. */
    predicate IsPermanent(b: Bucket.Bucket)
      reads this`buckets
    {
      b.id in buckets && buckets[b.id] == b
    }

    ghost predicate AllPermanent(s: seq<Bucket.Bucket>)
      reads this`buckets
    {
      forall i :: 0 <= i < |s| ==> IsPermanent(s[i])
    }

    /** Every bucket keeps its enqueue chain sound. */
    ghost predicate BucketsValid()
      reads this`Repr, Repr`listeners, Repr`released, Repr`finished, Repr`admitted, Repr`queue, Repr`completions
    {
      forall b {:trigger b.Valid()} :: b in Repr ==> b.Valid()
    }

    ghost predicate Valid()
      reads this, Repr`listeners, Repr`released, Repr`finished, Repr`admitted, Repr`queue, Repr`completions
    {
      Shape() && BucketsValid()
    }

    /** Every request a bucket has admitted has an id of at most n. */
    ghost predicate AdmittedAtMost(n: nat)
      reads this`Repr, Repr`admitted
    {
      forall b, x :: b in Repr && x in b.admitted ==> x <= n
    }

    /** The bucket is one the registry holds, temporary or permanent. */
    predicate Holds(b: Bucket.Bucket)
      reads this`temporaryBucketsByUrl, this`buckets
    {
      (b.id in temporaryBucketsByUrl && temporaryBucketsByUrl[b.id] == b) || IsPermanent(b)
    }

    /** The permanent buckets the route's temporary bucket will hand its block to. */
    function Scheduled(route: string): seq<Bucket.Bucket>
      reads this
    {
      if route in pendingRemovals then pendingRemovals[route] else []
    }

    constructor ()
      ensures temporaryBucketsByUrl == map[] && buckets == map[] && bucketsByUrl == map[] && pendingRemovals == map[]
      ensures Valid() && AdmittedAtMost(0)
    {
      temporaryBucketsByUrl := map[];
      buckets := map[];
      bucketsByUrl := map[];
      pendingRemovals := map[];
      Repr := {};
    }

    /** A permanent bucket for the id, stored under the id and the route (createBucket). */
    method CreateBucket(route: string, bucketId: string) returns (b: Bucket.Bucket)
      requires Valid() && bucketId !in buckets
      modifies this`buckets, this`bucketsByUrl, this`Repr
      ensures Valid() && Repr == old(Repr) + {b}
      ensures fresh(b) && b.id == bucketId && b.queue == [] && b.blockedUntil == None && b.admitted == {}
      ensures buckets == old(buckets)[bucketId := b] && bucketsByUrl == old(bucketsByUrl)[route := b]
    {
      b := new Bucket.Bucket(bucketId);
      ghost var before := buckets;
      buckets := buckets[bucketId := b];
      forall c: Bucket.Bucket | c.id in before && before[c.id] == c
        ensures IsPermanent(c)
      {
      }
      forall r | r in temporaryBucketsByUrl
        ensures !IsPermanent(temporaryBucketsByUrl[r])
      {
        assert temporaryBucketsByUrl[r] != b;
      }
      bucketsByUrl := bucketsByUrl[route := b];
      Repr := Repr + {b};
    }

    /** A temporary bucket for a route that has none, its id the route (createTemporaryBucket). */
    method CreateTemporaryBucket(route: string) returns (b: Bucket.Bucket)
      requires Valid() && route !in temporaryBucketsByUrl
      modifies this`temporaryBucketsByUrl, this`Repr
      ensures Valid() && Repr == old(Repr) + {b}
      ensures fresh(b) && b.id == route && b.queue == [] && b.blockedUntil == None && b.admitted == {}
      ensures temporaryBucketsByUrl == old(temporaryBucketsByUrl)[route := b]
    {
      b := new Bucket.Bucket(route);
      temporaryBucketsByUrl := temporaryBucketsByUrl[route := b];
      Repr := Repr + {b};
    }

    /**
     * The bucket a request for url goes to (getBucketForUrl): the route's
     * permanent bucket, unless its temporary bucket still holds requests,
     * which keep their order by draining first; a route without a
     * permanent bucket uses its temporary bucket, made on first use.
     */
    method GetBucketForUrl(url: string) returns (b: Bucket.Bucket)
      requires Valid()
      modifies this`temporaryBucketsByUrl, this`Repr
      ensures Valid() && Holds(b) && old(Repr) <= Repr && fresh(Repr - old(Repr))
      ensures forall n: nat :: old(AdmittedAtMost(n)) ==> AdmittedAtMost(n)
      ensures var choice := ChooseBucket(url in bucketsByUrl, url in old(temporaryBucketsByUrl),
                                         url in old(temporaryBucketsByUrl) &&
                                         old(temporaryBucketsByUrl[url].HasPendingRequests()));
        (choice == UsePermanent ==>
           temporaryBucketsByUrl == old(temporaryBucketsByUrl) && b == bucketsByUrl[url]) &&
        (choice == UseTemporary ==>
           temporaryBucketsByUrl == old(temporaryBucketsByUrl) && b == temporaryBucketsByUrl[url]) &&
        (choice == CreateTemporary ==>
           fresh(b) && b.id == url && b.queue == [] && b.blockedUntil == None && b.admitted == {} &&
           temporaryBucketsByUrl == old(temporaryBucketsByUrl)[url := b])
    {
      if url in bucketsByUrl {
        if url in temporaryBucketsByUrl && temporaryBucketsByUrl[url].HasPendingRequests() {
          return temporaryBucketsByUrl[url];
        }
        return bucketsByUrl[url];
      } else if url !in temporaryBucketsByUrl {
        b := CreateTemporaryBucket(url);
      } else {
        b := temporaryBucketsByUrl[url];
      }
    }

    /**
     * One of the registry's buckets, held or retired, enqueues the next
     * request, whose id is one more than any admitted so far; the registry
     * stays sound.
     */
    method Admit(b: Bucket.Bucket, request: ApiRequest, ghost n: nat)
      requires Valid() && b in Repr && AdmittedAtMost(n) && request.id == n + 1
      modifies b`queue, b`listeners, b`released, b`admitted
      ensures Valid() && AdmittedAtMost(n + 1)
      ensures b.queue == old(b.queue) + [request]
      ensures old(b.queue) == [] ==> request.id in b.released
    {
      b.Enqueue(request);
      forall c, x | c in Repr && x in c.admitted
        ensures x <= n + 1
      {
        if c != b {
          assert x in old(c.admitted);
        }
      }
    }

    /**
     * The bucket getBucketForUrl chooses for the request's route enqueues
     * the request, whose id is one more than any admitted so far.
     */
    method AdmitForUrl(request: ApiRequest, ghost n: nat) returns (b: Bucket.Bucket)
      requires Valid() && AdmittedAtMost(n) && request.id == n + 1
      modifies this`temporaryBucketsByUrl, this`Repr, Repr`queue, Repr`listeners, Repr`released, Repr`admitted
      ensures Valid() && AdmittedAtMost(n + 1) && Holds(b) && old(Repr) <= Repr && fresh(Repr - old(Repr))
      ensures b in old(Repr) ==> b.queue == old(b.queue) + [request]
      ensures forall c :: c in old(Repr) && c != b ==>
        c.queue == old(c.queue) && c.listeners == old(c.listeners) &&
        c.released == old(c.released) && c.admitted == old(c.admitted)
      ensures var url := request.route;
        var choice := ChooseBucket(url in bucketsByUrl, url in old(temporaryBucketsByUrl),
                                   url in old(temporaryBucketsByUrl) &&
                                   old(temporaryBucketsByUrl[url].HasPendingRequests()));
        (choice == UsePermanent ==>
           b == bucketsByUrl[url] && b in old(Repr) && temporaryBucketsByUrl == old(temporaryBucketsByUrl)) &&
        (choice == UseTemporary ==>
           b == old(temporaryBucketsByUrl[url]) && b in old(Repr) && temporaryBucketsByUrl == old(temporaryBucketsByUrl)) &&
        (choice == CreateTemporary ==>
           fresh(b) && b.id == url && b.queue == [request] && temporaryBucketsByUrl == old(temporaryBucketsByUrl)[url := b])
    {
      b := GetBucketForUrl(request.route);
      Admit(b, request, n);
    }

    /**
     * One of the registry's buckets finishes a request as enqueue's promise
     * does (Bucket.Bucket.Settle): only a request that resolved leaves the
     * queue, and finishedAll comes only when that empties it. The registry
     * stays sound.
     */
    method Complete(b: Bucket.Bucket, request: ApiRequest, resolved: bool) returns (events: seq<Bucket.Event>)
      requires Valid() && b in Repr && request.id in b.released
      modifies b`queue, b`listeners, b`released, b`finished, b`completions
      ensures Valid()
      ensures b.queue == if resolved then Bucket.Without(old(b.queue), request.id) else old(b.queue)
      ensures events == if resolved && b.queue == [] then [Bucket.FinishedAll] else []
    {
      events := b.Settle(request, resolved);
    }

    /**
     * Registers a hand-over from the route's temporary bucket to newBucket
     * on its next finishedAll event; nothing when the route has no
     * temporary bucket (scheduleTemporaryBucketRemoval).
     */
    method ScheduleTemporaryBucketRemoval(route: string, newBucket: Bucket.Bucket)
      requires Valid() && IsPermanent(newBucket)
      modifies this`pendingRemovals
      ensures Valid()
      ensures pendingRemovals ==
        if route in temporaryBucketsByUrl then old(pendingRemovals)[route := old(Scheduled(route)) + [newBucket]]
        else old(pendingRemovals)
    {
      if route in temporaryBucketsByUrl {
        pendingRemovals := pendingRemovals[route := Scheduled(route) + [newBucket]];
      }

    }

    /**
     * Learns the bucket id Discord named for a route (recognizeURLBucket):
     * an unknown id gets a new permanent bucket, stored under the id and the
     * route, and the route's temporary bucket is scheduled for retirement;
     * a known id is mapped to a route that has no bucket yet; otherwise
     * nothing changes. Either way the id is then known and the route mapped.
     */
    method RecognizeUrlBucket(route: string, bucketId: string)
      requires Valid()
      modifies this`buckets, this`bucketsByUrl, this`pendingRemovals, this`Repr
      ensures Valid() && old(Repr) <= Repr && fresh(Repr - old(Repr))
      ensures forall n: nat :: old(AdmittedAtMost(n)) ==> AdmittedAtMost(n)
      ensures temporaryBucketsByUrl == old(temporaryBucketsByUrl)
      ensures bucketId in buckets && route in bucketsByUrl
      ensures match Recognize(bucketId in old(buckets), route in old(bucketsByUrl))
        case CreatePermanent =>
          fresh(buckets[bucketId]) && buckets[bucketId].id == bucketId && buckets[bucketId].queue == [] &&
          buckets[bucketId].admitted == {} &&
          buckets == old(buckets)[bucketId := buckets[bucketId]] &&
          bucketsByUrl == old(bucketsByUrl)[route := buckets[bucketId]] &&
          pendingRemovals ==
            if route in temporaryBucketsByUrl
            then old(pendingRemovals)[route := old(Scheduled(route)) + [buckets[bucketId]]]
            else old(pendingRemovals)
        case MapRoute =>
          buckets == old(buckets) && bucketsByUrl == old(bucketsByUrl)[route := buckets[bucketId]] &&
          pendingRemovals == old(pendingRemovals)
        case Nothing =>
          buckets == old(buckets) && bucketsByUrl == old(bucketsByUrl) && pendingRemovals == old(pendingRemovals)
    {
      if bucketId !in buckets {
        var newBucket := CreateBucket(route, bucketId);
        ScheduleTemporaryBucketRemoval(route, newBucket);
      } else if route !in bucketsByUrl {
        bucketsByUrl := bucketsByUrl[route := buckets[bucketId]];
      }
    }

    /**
     * The route's temporary bucket emitted finishedAll with removals
     * scheduled: each scheduled permanent bucket takes over its block, and
     * the temporary bucket and its listeners leave the registry.
     */
    method TemporaryBucketDrained(route: string, now: int)
      requires Valid() && route in pendingRemovals
      modifies this`temporaryBucketsByUrl, this`pendingRemovals, Repr`blockedUntil
      ensures Valid()
      ensures temporaryBucketsByUrl == old(temporaryBucketsByUrl) - {route}
      ensures pendingRemovals == old(pendingRemovals) - {route}
      ensures buckets == old(buckets) && bucketsByUrl == old(bucketsByUrl)
      ensures var temp := old(temporaryBucketsByUrl[route].blockedUntil);
        forall k :: k in buckets ==>
          buckets[k].blockedUntil ==
            if IsBlockedAt(temp, now) && buckets[k] in old(pendingRemovals[route]) then temp
            else old(buckets[k].blockedUntil)
      ensures forall b :: b in Repr && b !in old(pendingRemovals[route]) ==> b.blockedUntil == old(b.blockedUntil)
      ensures forall b :: b in Repr && !IsPermanent(b) ==> b.blockedUntil == old(b.blockedUntil)
    {
      var temp := temporaryBucketsByUrl[route];
      var targets := pendingRemovals[route];
      forall i | 0 <= i < |targets|
        ensures targets[i] in Repr && targets[i] != temp
      {
        assert IsPermanent(targets[i]);
      }
      CopyBlockToEach(temp, targets, now);
      temporaryBucketsByUrl := temporaryBucketsByUrl - {route};
      pendingRemovals := pendingRemovals - {route};
    }

    /**
     * Holds every permanent bucket for at least durationMs from now
     * (blockBucketsByDuration): an unblocked bucket takes the new deadline,
     * a blocked one keeps the later of the two. Temporary buckets are left
     * as they are.
     */
    method BlockBucketsByDuration(durationMs: int, now: int)
      requires Valid()
      modifies Repr`blockedUntil
      ensures Valid()
      ensures forall k :: k in buckets ==>
        buckets[k].blockedUntil == GlobalDeadline(old(buckets[k].blockedUntil), now, durationMs)
      ensures forall r :: r in temporaryBucketsByUrl ==>
        temporaryBucketsByUrl[r].blockedUntil == old(temporaryBucketsByUrl[r].blockedUntil)
      ensures forall b :: b in Repr && !IsPermanent(b) ==> b.blockedUntil == old(b.blockedUntil)
    {
      var keys := buckets.Keys;
      while keys != {}
        invariant keys <= buckets.Keys
        invariant forall k :: k in buckets ==>
          buckets[k].blockedUntil ==
            if k in keys then old(buckets[k].blockedUntil)
            else GlobalDeadline(old(buckets[k].blockedUntil), now, durationMs)
        invariant forall r :: r in temporaryBucketsByUrl ==>
          temporaryBucketsByUrl[r].blockedUntil == old(temporaryBucketsByUrl[r].blockedUntil)
        invariant forall b :: b in Repr && !IsPermanent(b) ==> b.blockedUntil == old(b.blockedUntil)
        decreases keys
      {
        var k :| k in keys;
        var bucket := buckets[k];
        if !IsBlockedAt(bucket.blockedUntil, now) {
          bucket.Block(durationMs, now);
        } else if now + durationMs > bucket.blockedUntil.value {
          bucket.Block(durationMs, now);
        }
        keys := keys - {k};
      }
    }
  }

  /**
   * The scheduled hand-overs, one per listener in scheduling order: each
   * target takes the temporary bucket's deadline when it is in force.
   */
  method CopyBlockToEach(temp: Bucket.Bucket, targets: seq<Bucket.Bucket>, now: int)
    requires temp !in targets
    modifies (set b | b in targets)`blockedUntil
    ensures forall b :: b in targets ==>
      b.blockedUntil == if IsBlockedAt(temp.blockedUntil, now) then temp.blockedUntil else old(b.blockedUntil)
  {
    var i := 0;
    while i < |targets|
      invariant 0 <= i <= |targets|
      invariant forall b :: b in targets ==>
        b.blockedUntil ==
          if IsBlockedAt(temp.blockedUntil, now) && b in targets[..i] then temp.blockedUntil
          else old(b.blockedUntil)
    {
      temp.CopyBlockTo(targets[i], now);
      assert targets[..i + 1] == targets[..i] + [targets[i]];
      i := i + 1;
    }
    assert targets[..i] == targets;
  }
}
