/**
 * The bucket registry of src/RESTHandlerAsync.ts: the same three maps and
 * scheduled retirements as the other handlers, over the job-queue buckets
 * of src/BucketAsync.ts, whose blocks also pause their queues. A global
 * Cloudflare limit can also clear the permanent buckets' waiting jobs.
 */
module RegistryAsync {
  import opened Wrappers
  import opened Policy
  import opened Requests
  import BucketAsync

  type AsyncBucket = BucketAsync.AsyncBucket

  class AsyncRegistry {
    /** Route -> the temporary bucket whose id is the route itself. */
    var temporaryBucketsByUrl: map<string, AsyncBucket>
    /** Bucket id -> permanent bucket. */
    var buckets: map<string, AsyncBucket>
    /** Route -> the permanent bucket Discord named for it. */
    var bucketsByUrl: map<string, AsyncBucket>
    /** Route -> the permanent buckets its temporary bucket hands its block to on its next finishedAll. */
    var pendingRemovals: map<string, seq<AsyncBucket>>
    /** Every bucket the registry has created. */
    ghost var Repr: set<AsyncBucket>

    /**
     * Temporary buckets are keyed by their own id (the route), permanent
     * ones by theirs, the two kinds never share an object, every route
     * mapping and every scheduled hand-over names a registered permanent
     * bucket, and only a route with a temporary bucket has removals
     * scheduled.
     */
    ghost predicate Shape()
      reads this
    {
      (forall r :: r in temporaryBucketsByUrl ==>
        temporaryBucketsByUrl[r].id == r && temporaryBucketsByUrl[r] in Repr) &&
      (forall k :: k in buckets ==> buckets[k].id == k && buckets[k] in Repr) &&
      (forall r :: r in bucketsByUrl ==> IsPermanent(bucketsByUrl[r])) &&
      (forall r :: r in temporaryBucketsByUrl ==> !IsPermanent(temporaryBucketsByUrl[r])) &&
      (forall r :: r in pendingRemovals ==> r in temporaryBucketsByUrl && AllPermanent(pendingRemovals[r]))
    }

    /** The bucket is the permanent bucket registered under its id. */
    predicate IsPermanent(b: AsyncBucket)
      reads this`buckets
    {
      b.id in buckets && buckets[b.id] == b
    }

    ghost predicate AllPermanent(s: seq<AsyncBucket>)
      reads this`buckets
    {
      forall i :: 0 <= i < |s| ==> IsPermanent(s[i])
    }

    /** Every bucket runs its jobs in order. */
    ghost predicate BucketsValid()
      reads this`Repr, Repr`done, Repr`running, Repr`waiting, Repr`paused
    {
      forall b {:trigger b.Valid()} :: b in Repr ==> b.Valid()
    }

    ghost predicate Valid()
      reads this, Repr`done, Repr`running, Repr`waiting, Repr`paused
    {
      Shape() && BucketsValid()
    }

    /** Every job any bucket has been given carries an id of at most n. */
    ghost predicate JobsAtMost(n: nat)
      reads this`Repr, Repr`done, Repr`running, Repr`waiting
    {
      forall b, r :: b in Repr && r in b.Jobs() ==> r.id <= n
    }

    /** The bucket is one the registry holds, temporary or permanent. */
    predicate Holds(b: AsyncBucket)
      reads this`temporaryBucketsByUrl, this`buckets
    {
      (b.id in temporaryBucketsByUrl && temporaryBucketsByUrl[b.id] == b) || IsPermanent(b)
    }

    function Scheduled(route: string): seq<AsyncBucket>
      reads this
    {
      if route in pendingRemovals then pendingRemovals[route] else []
    }

    constructor ()
      ensures temporaryBucketsByUrl == map[] && buckets == map[] && bucketsByUrl == map[] && pendingRemovals == map[]
      ensures Valid() && JobsAtMost(0)
    {
      temporaryBucketsByUrl := map[];
      buckets := map[];
      bucketsByUrl := map[];
      pendingRemovals := map[];
      Repr := {};
    }

    /** A permanent bucket for the id, stored under the id and the route (createBucket). */
    method CreateBucket(route: string, bucketId: string) returns (b: AsyncBucket)
      requires Valid() && bucketId !in buckets
      modifies this`buckets, this`bucketsByUrl, this`Repr
      ensures Valid() && Repr == old(Repr) + {b}
      ensures fresh(b) && b.id == bucketId && b.Jobs() == [] && b.blockedUntil == None && !b.paused
      ensures buckets == old(buckets)[bucketId := b] && bucketsByUrl == old(bucketsByUrl)[route := b]
    {
      b := new BucketAsync.AsyncBucket(bucketId);
      ghost var before := buckets;
      buckets := buckets[bucketId := b];
      forall c: AsyncBucket | c.id in before && before[c.id] == c
        ensures IsPermanent(c)
      {
      }
      forall r | r in temporaryBucketsByUrl
        ensures !IsPermanent(temporaryBucketsByUrl[r])
      {
        assert temporaryBucketsByUrl[r] != b;
      }
      bucketsByUrl := bucketsByUrl[route := b];
      Repr := Repr + {b};
    }

    /** A temporary bucket for a route that has none, its id the route (createTemporaryBucket). */
    method CreateTemporaryBucket(route: string) returns (b: AsyncBucket)
      requires Valid() && route !in temporaryBucketsByUrl
      modifies this`temporaryBucketsByUrl, this`Repr
      ensures Valid() && Repr == old(Repr) + {b}
      ensures fresh(b) && b.id == route && b.Jobs() == [] && b.blockedUntil == None && !b.paused
      ensures temporaryBucketsByUrl == old(temporaryBucketsByUrl)[route := b]
    {
      b := new BucketAsync.AsyncBucket(route);
      temporaryBucketsByUrl := temporaryBucketsByUrl[route := b];
      Repr := Repr + {b};
    }

    /**
     * The bucket a request for url goes to (getBucketForUrl): the route's
     * permanent bucket, unless its temporary bucket still has jobs waiting;
     * a route without a permanent bucket uses its temporary bucket, made on
     * first use.
     */
    method GetBucketForUrl(url: string) returns (b: AsyncBucket)
      requires Valid()
      modifies this`temporaryBucketsByUrl, this`Repr
      ensures Valid() && Holds(b) && old(Repr) <= Repr && fresh(Repr - old(Repr))
      ensures forall n: nat :: old(JobsAtMost(n)) ==> JobsAtMost(n)
      ensures var choice := ChooseBucket(url in bucketsByUrl, url in old(temporaryBucketsByUrl),
                                         url in old(temporaryBucketsByUrl) &&
                                         old(temporaryBucketsByUrl[url].HasPendingRequests()));
        (choice == UsePermanent ==>
           temporaryBucketsByUrl == old(temporaryBucketsByUrl) && b == bucketsByUrl[url]) &&
        (choice == UseTemporary ==>
           temporaryBucketsByUrl == old(temporaryBucketsByUrl) && b == temporaryBucketsByUrl[url]) &&
        (choice == CreateTemporary ==>
           fresh(b) && b.id == url && b.Jobs() == [] && !b.paused &&
           temporaryBucketsByUrl == old(temporaryBucketsByUrl)[url := b])
    {
      if url in bucketsByUrl {
        if url in temporaryBucketsByUrl && temporaryBucketsByUrl[url].HasPendingRequests() {
          return temporaryBucketsByUrl[url];
        }
        return bucketsByUrl[url];
      } else if url !in temporaryBucketsByUrl {
        b := CreateTemporaryBucket(url);
      } else {
        b := temporaryBucketsByUrl[url];
      }
    }

    /**
     * One of the registry's buckets is given the next request, whose id is
     * one more than any job so far; a paused bucket drops it.
     */
    method Admit(b: AsyncBucket, request: ApiRequest, ghost n: nat) returns (added: bool)
      requires Valid() && b in Repr && JobsAtMost(n) && request.id == n + 1
      modifies b`waiting, b`running, b`done
      ensures Valid() && JobsAtMost(n + 1)
      ensures added == !old(b.paused)
      ensures b.Jobs() == if added then old(b.Jobs()) + [request] else old(b.Jobs())
    {
      added := b.Enqueue(request);
      forall c, r | c in Repr && r in c.Jobs()
        ensures r.id <= n + 1
      {
        if c != b {
          assert r in old(c.Jobs());
        } else if r != request {
          assert r in old(b.Jobs());
        }
      }
    }

    /**
     * The queue worker's step: the bucket getBucketForUrl chooses for the
     * request's route is given the request, whose id is one more than any
     * job so far; a paused bucket drops it.
     */
    method AdmitForUrl(request: ApiRequest, ghost n: nat) returns (b: AsyncBucket, added: bool)
      requires Valid() && JobsAtMost(n) && request.id == n + 1
      modifies this`temporaryBucketsByUrl, this`Repr, Repr`waiting, Repr`running, Repr`done
      ensures Valid() && JobsAtMost(n + 1) && Holds(b) && old(Repr) <= Repr && fresh(Repr - old(Repr))
      ensures added == !b.paused
      ensures b in old(Repr) ==> b.Jobs() == if added then old(b.Jobs()) + [request] else old(b.Jobs())
      ensures forall c :: c in old(Repr) && c != b ==>
        c.waiting == old(c.waiting) && c.running == old(c.running) && c.done == old(c.done)
      ensures var url := request.route;
        var choice := ChooseBucket(url in bucketsByUrl, url in old(temporaryBucketsByUrl),
                                   url in old(temporaryBucketsByUrl) &&
                                   old(temporaryBucketsByUrl[url].HasPendingRequests()));
        (choice == UsePermanent ==>
           b == bucketsByUrl[url] && temporaryBucketsByUrl == old(temporaryBucketsByUrl)) &&
        (choice == UseTemporary ==>
           b == old(temporaryBucketsByUrl[url]) && temporaryBucketsByUrl == old(temporaryBucketsByUrl)) &&
        (choice == CreateTemporary ==>
           fresh(b) && b.id == url && added && b.Jobs() == [request] &&
           temporaryBucketsByUrl == old(temporaryBucketsByUrl)[url := b])
    {
      b := GetBucketForUrl(request.route);
      added := Admit(b, request, n);
    }

    /**
     * The running job of one of the registry's buckets ends: the next
     * waiting job starts unless the bucket is paused, and an idle bucket
     * reports finishedAll.
     */
    method JobDone(b: AsyncBucket) returns (events: seq<BucketAsync.Event>)
      requires Valid() && b in Repr && b.running.Some?
      modifies b`waiting, b`running, b`done
      ensures Valid() && b.Jobs() == old(b.Jobs()) && b.done == old(b.done) + [old(b.running).value]
      ensures forall n: nat :: old(JobsAtMost(n)) ==> JobsAtMost(n)
      ensures events == if old(b.waiting) == [] then [BucketAsync.FinishedAll] else []
      ensures !old(b.paused) && old(b.waiting) != [] ==> b.running == Some(old(b.waiting)[0]) && b.waiting == old(b.waiting)[1..]
      ensures old(b.paused) || old(b.waiting) == [] ==> b.running == None && b.waiting == old(b.waiting)
    {
      events := b.JobDone();
    }

    /**
     * Registers a hand-over from the route's temporary bucket to newBucket
     * on its next finishedAll event; nothing when the route has no
     * temporary bucket (scheduleTemporaryBucketRemoval).
     */
    method ScheduleTemporaryBucketRemoval(route: string, newBucket: AsyncBucket)
      requires Valid() && IsPermanent(newBucket)
      modifies this`pendingRemovals
      ensures Valid()
      ensures pendingRemovals ==
        if route in temporaryBucketsByUrl then old(pendingRemovals)[route := old(Scheduled(route)) + [newBucket]]
        else old(pendingRemovals)
    {
      if route in temporaryBucketsByUrl {
        pendingRemovals := pendingRemovals[route := Scheduled(route) + [newBucket]];
      }
    }

    /**
     * Learns the bucket id Discord named for a route (recognizeURLBucket):
     * an unknown id gets a new permanent bucket and the route's temporary
     * bucket is scheduled for retirement; a known id is mapped to a route
     * that has no bucket yet; otherwise nothing changes.
     */
    method RecognizeUrlBucket(route: string, bucketId: string)
      requires Valid()
      modifies this`buckets, this`bucketsByUrl, this`pendingRemovals, this`Repr
      ensures Valid() && old(Repr) <= Repr && fresh(Repr - old(Repr))
      ensures forall n: nat :: old(JobsAtMost(n)) ==> JobsAtMost(n)
      ensures temporaryBucketsByUrl == old(temporaryBucketsByUrl)
      ensures bucketId in buckets && route in bucketsByUrl
      ensures match Recognize(bucketId in old(buckets), route in old(bucketsByUrl))
        case CreatePermanent =>
          fresh(buckets[bucketId]) && buckets[bucketId].id == bucketId && buckets[bucketId].Jobs() == [] &&
          buckets == old(buckets)[bucketId := buckets[bucketId]] &&
          bucketsByUrl == old(bucketsByUrl)[route := buckets[bucketId]] &&
          pendingRemovals ==
            if route in temporaryBucketsByUrl
            then old(pendingRemovals)[route := old(Scheduled(route)) + [buckets[bucketId]]]
            else old(pendingRemovals)
        case MapRoute =>
          buckets == old(buckets) && bucketsByUrl == old(bucketsByUrl)[route := buckets[bucketId]] &&
          pendingRemovals == old(pendingRemovals)
        case Nothing =>
          buckets == old(buckets) && bucketsByUrl == old(bucketsByUrl) && pendingRemovals == old(pendingRemovals)
    {
      if bucketId !in buckets {
        var newBucket := CreateBucket(route, bucketId);
        ScheduleTemporaryBucketRemoval(route, newBucket);
      } else if route !in bucketsByUrl {
        bucketsByUrl := bucketsByUrl[route := buckets[bucketId]];
      }
    }

    /**
     * The route's temporary bucket emitted finishedAll with removals
     * scheduled: each scheduled permanent bucket takes over its block (and
     * is paused with it), and the temporary bucket leaves the registry.
     */
    method TemporaryBucketDrained(route: string, now: int)
      requires Valid() && route in pendingRemovals
      modifies this`temporaryBucketsByUrl, this`pendingRemovals, Repr`blockedUntil, Repr`paused
      ensures Valid()
      ensures temporaryBucketsByUrl == old(temporaryBucketsByUrl) - {route}
      ensures pendingRemovals == old(pendingRemovals) - {route}
      ensures buckets == old(buckets) && bucketsByUrl == old(bucketsByUrl)
      ensures var temp := old(temporaryBucketsByUrl[route].blockedUntil);
        forall k :: k in buckets ==>
          if IsBlockedAt(temp, now) && buckets[k] in old(pendingRemovals[route])
          then buckets[k].blockedUntil == temp && buckets[k].paused
          else buckets[k].blockedUntil == old(buckets[k].blockedUntil) && buckets[k].paused == old(buckets[k].paused)
      ensures forall b :: b in Repr && !IsPermanent(b) ==> b.blockedUntil == old(b.blockedUntil) && b.paused == old(b.paused)
    {
      var temp := temporaryBucketsByUrl[route];
      var targets := pendingRemovals[route];
      forall i | 0 <= i < |targets|
        ensures targets[i] in Repr && targets[i] != temp
      {
        assert IsPermanent(targets[i]);
      }
      CopyBlockToEach(temp, targets, now);
      temporaryBucketsByUrl := temporaryBucketsByUrl - {route};
      pendingRemovals := pendingRemovals - {route};
    }

    /** One bucket of blockBucketsByDuration: blocked when it is not, or when the global block ends later. */
    method BlockByDuration(bucket: AsyncBucket, durationMs: int, now: int)
      requires Valid() && bucket in Repr
      modifies bucket`blockedUntil, bucket`paused
      ensures Valid()
      ensures bucket.blockedUntil == GlobalDeadline(old(bucket.blockedUntil), now, durationMs)
      ensures bucket.paused == (old(bucket.paused) || GlobalBlockApplies(old(bucket.blockedUntil), now, durationMs))
    {
      if !IsBlockedAt(bucket.blockedUntil, now) {
        bucket.Block(durationMs, now);
      } else if now + durationMs > bucket.blockedUntil.value {
        bucket.Block(durationMs, now);
      }
    }

    /**
     * Holds every permanent bucket for at least durationMs from now
     * (blockBucketsByDuration); a bucket that takes the global deadline is
     * paused with it. Temporary buckets are left as they are.
     */
    method BlockBucketsByDuration(durationMs: int, now: int)
      requires Valid()
      modifies Repr`blockedUntil, Repr`paused
      ensures Valid()
      ensures forall k :: k in buckets ==>
        buckets[k].blockedUntil == GlobalDeadline(old(buckets[k].blockedUntil), now, durationMs) &&
        buckets[k].paused == (old(buckets[k].paused) || GlobalBlockApplies(old(buckets[k].blockedUntil), now, durationMs))
      ensures forall r :: r in temporaryBucketsByUrl ==>
        temporaryBucketsByUrl[r].blockedUntil == old(temporaryBucketsByUrl[r].blockedUntil) &&
        temporaryBucketsByUrl[r].paused == old(temporaryBucketsByUrl[r].paused)
      ensures forall b :: b in Repr && !IsPermanent(b) ==> b.blockedUntil == old(b.blockedUntil) && b.paused == old(b.paused)
    {
      var keys := buckets.Keys;
      while keys != {}
        invariant keys <= buckets.Keys
        invariant Valid()
        invariant forall k :: k in buckets ==>
          if k in keys
          then buckets[k].blockedUntil == old(buckets[k].blockedUntil) && buckets[k].paused == old(buckets[k].paused)
          else buckets[k].blockedUntil == GlobalDeadline(old(buckets[k].blockedUntil), now, durationMs) &&
               buckets[k].paused == (old(buckets[k].paused) || GlobalBlockApplies(old(buckets[k].blockedUntil), now, durationMs))
        invariant forall r :: r in temporaryBucketsByUrl ==>
          temporaryBucketsByUrl[r].blockedUntil == old(temporaryBucketsByUrl[r].blockedUntil) &&
          temporaryBucketsByUrl[r].paused == old(temporaryBucketsByUrl[r].paused)
        invariant forall b :: b in Repr && !IsPermanent(b) ==> b.blockedUntil == old(b.blockedUntil) && b.paused == old(b.paused)
        decreases keys
      {
        var k :| k in keys;
        assert IsPermanent(buckets[k]);
        BlockByDuration(buckets[k], durationMs, now);
        keys := keys - {k};
      }
    }

    /**
     * The registry's part of a global block: every permanent bucket is held
     * for at least durationMs (blockBucketsByDuration) and, when clear is
     * set, loses its waiting jobs (clearBuckets). Temporary buckets are left
     * as they are.
     */
    method BlockAll(durationMs: int, now: int, clear: bool)
      requires Valid()
      modifies Repr`blockedUntil, Repr`paused, Repr`waiting
      ensures Valid()
      ensures forall n: nat :: old(JobsAtMost(n)) ==> JobsAtMost(n)
      ensures forall k :: k in buckets ==>
        buckets[k].blockedUntil == GlobalDeadline(old(buckets[k].blockedUntil), now, durationMs) &&
        buckets[k].paused == (old(buckets[k].paused) || GlobalBlockApplies(old(buckets[k].blockedUntil), now, durationMs)) &&
        buckets[k].waiting == if clear then [] else old(buckets[k].waiting)
      ensures forall r :: r in temporaryBucketsByUrl ==>
        var b := temporaryBucketsByUrl[r];
        b.blockedUntil == old(b.blockedUntil) && b.paused == old(b.paused) && b.waiting == old(b.waiting)
      ensures forall b :: b in Repr && !IsPermanent(b) ==>
        b.blockedUntil == old(b.blockedUntil) && b.paused == old(b.paused) && b.waiting == old(b.waiting)
    {
      BlockBucketsByDuration(durationMs, now);
      if clear {
        ClearBuckets();
      }
    }

    /** Drops the waiting jobs of every permanent bucket (clearBuckets); running and done jobs stay. */
    method ClearBuckets()
      requires Valid()
      modifies Repr`waiting
      ensures Valid()
      ensures forall n: nat :: old(JobsAtMost(n)) ==> JobsAtMost(n)
      ensures forall k :: k in buckets ==> buckets[k].waiting == []
      ensures forall r :: r in temporaryBucketsByUrl ==>
        temporaryBucketsByUrl[r].waiting == old(temporaryBucketsByUrl[r].waiting)
      ensures forall b :: b in Repr && !IsPermanent(b) ==> b.waiting == old(b.waiting)
    {
      var keys := buckets.Keys;
      while keys != {}
        invariant keys <= buckets.Keys
        invariant Valid()
        invariant forall b, r :: b in Repr && r in b.Jobs() ==> r in old(b.Jobs())
        invariant forall k :: k in buckets ==>
          buckets[k].waiting == if k in keys then old(buckets[k].waiting) else []
        invariant forall r :: r in temporaryBucketsByUrl ==>
          temporaryBucketsByUrl[r].waiting == old(temporaryBucketsByUrl[r].waiting)
        invariant forall b :: b in Repr && !IsPermanent(b) ==> b.waiting == old(b.waiting)
        decreases keys
      {
        var k :| k in keys;
        buckets[k].Clear();
        keys := keys - {k};
      }
    }
  }

  /**
   * The scheduled hand-overs, one per listener in scheduling order: each
   * target takes the temporary bucket's deadline, and is paused, when that
   * deadline is in force.
   */
  method CopyBlockToEach(temp: AsyncBucket, targets: seq<AsyncBucket>, now: int)
    requires temp !in targets
    modifies (set b | b in targets)`blockedUntil, (set b | b in targets)`paused
    ensures forall b :: b in targets ==>
      if IsBlockedAt(temp.blockedUntil, now)
      then b.blockedUntil == temp.blockedUntil && b.paused
      else b.blockedUntil == old(b.blockedUntil) && b.paused == old(b.paused)
    ensures forall b :: b in targets && old(b.Valid()) ==> b.Valid()
  {
    var i := 0;
    while i < |targets|
      invariant 0 <= i <= |targets|
      invariant forall b :: b in targets ==>
        if IsBlockedAt(temp.blockedUntil, now) && b in targets[..i]
        then b.blockedUntil == temp.blockedUntil && b.paused
        else b.blockedUntil == old(b.blockedUntil) && b.paused == old(b.paused)
      invariant forall b :: b in targets && old(b.Valid()) ==> b.Valid()
    {
      temp.CopyBlockTo(targets[i], now);
      assert targets[..i + 1] == targets[..i] + [targets[i]];
      i := i + 1;
    }
    assert targets[..i] == targets;
  }
}
