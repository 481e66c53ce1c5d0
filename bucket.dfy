/**
 * A rate-limit bucket (src/Bucket.js): requests for the routes that share a
 * Discord bucket run one at a time, in the order they were enqueued, and not
 * before the bucket's block has passed.
 *
 * The promise chain of `enqueue` is kept as state: `listeners` maps each
 * waiting request to the request whose `finishedRequest-<id>` event it
 * awaits, `released` holds the requests whose wait is over, and `finished`
 * the requests whose `finishedRequest` event has been emitted.
 */
module Bucket {
  import opened Wrappers
  import opened RateLimitHeaders
  import BucketId
  import opened Policy
  import opened Requests

  /** What a bucket emits for the handler. */
  datatype Event =
    | RecognizeUrlBucket(url: string, bucketId: string)
    | RateLimit(requestId: nat, durationMs: int)
    | GlobalRateLimit(requestId: nat, durationMs: int)
    | CloudflareRateLimit(requestId: nat, durationMs: int)
    | InvalidRequest(requestId: nat)
    | FinishedAll

  /** How one call of execute ends. */
  datatype Outcome =
    | Delayed(waitMs: int)          // execute runs again for the request after waitMs
    | Resolved(response: Response)  // the request's promise resolves with the response
    | Rejected                      // the fetch threw; the request's promise rejects

  /** The recognizeURLBucket event of a response: only a response naming its bucket has one. */
  function RecognitionEvents(url: string, h: Headers): (es: seq<Event>)
    ensures HasBucketLimits(h) ==> es == [RecognizeUrlBucket(url, BucketId.ResolveBucketId(url, h.bucket))]
    ensures !HasBucketLimits(h) ==> es == []
  {
    if HasBucketLimits(h) then [RecognizeUrlBucket(url, BucketId.ResolveBucketId(url, h.bucket))] else []
  }

  /** What the bucket does with a response: the events, the block it starts and whether the request runs again. */
  datatype Handling = Handling(events: seq<Event>, block: Option<int>, retry: bool)

  /**
   * execute after the fetch: recognise the bucket, then handle a 429
   * (handle429Response) or any other response (handleResponse).
   */
  function HandleResponse(requestId: nat, route: string, response: Response): (r: Handling)
    ensures r.retry <==> response.status == 429
    ensures r.retry ==> r.block.Some?
    ensures var rec := RecognitionEvents(route, response.headers);
      |rec| <= |r.events| && r.events[..|rec|] == rec
  {
    var h := response.headers;
    var recognized := RecognitionEvents(route, h);
    if response.status == 429 then
      var d := BlockedDuration(h, true);
      var limited := if IsGloballyBlocked(h) then GlobalRateLimit(requestId, d) else RateLimit(requestId, d);
      if d == NoDuration then
        Handling(recognized + [limited, CloudflareRateLimit(requestId, CloudflareFallbackMs), InvalidRequest(requestId)],
                 Some(CloudflareFallbackMs), true)
      else
        Handling(recognized + [limited, InvalidRequest(requestId)], Some(d), true)
    else
      var d := BlockedDuration(h, false);
      Handling(recognized + (if response.status == 401 || response.status == 403 then [InvalidRequest(requestId)] else []),
               if d == NoDuration then None else Some(d), false)
  }

  /**
   * Only 401, 403 and 429 responses count as invalid requests, each once.
   */
  lemma InvalidRequestStatuses(requestId: nat, route: string, response: Response)
    ensures var r := HandleResponse(requestId, route, response);
      (InvalidRequest(requestId) in r.events <==> response.status in {401, 403, 429}) &&
      (response.status in {401, 403, 429} ==> r.events[|r.events| - 1] == InvalidRequest(requestId))
  {
  }

  /**
   * A 429 always blocks the bucket and runs the request again: for the
   * duration its headers give even with requests remaining, a global limit
   * first, and for three hours when they give none, which is then also
   * reported as a Cloudflare limit. The rate-limit event carries the
   * duration the headers gave, before the fallback.
   */
  lemma RateLimitedResponseBlocks(requestId: nat, route: string, response: Response)
    requires response.status == 429
    ensures var r := HandleResponse(requestId, route, response);
      var d := BlockedDuration(response.headers, true);
      var n := |RecognitionEvents(route, response.headers)|;
      r.retry &&
      r.block == Some(if d == NoDuration then CloudflareFallbackMs else d) &&
      r.events[n] == (if IsGloballyBlocked(response.headers) then GlobalRateLimit(requestId, d) else RateLimit(requestId, d)) &&
      (CloudflareRateLimit(requestId, CloudflareFallbackMs) in r.events <==> d == NoDuration)
  {
  }

  /** Any other response is handed back, blocking the bucket only when its headers give a duration. */
  lemma OtherResponseResolves(requestId: nat, route: string, response: Response)
    requires response.status != 429
    ensures var r := HandleResponse(requestId, route, response);
      var d := BlockedDuration(response.headers, false);
      !r.retry && (r.block.Some? <==> d != NoDuration) && (r.block.Some? ==> r.block.value == d)
  {
  }

  /** The ids of a queue, in queue order. */
  function Ids(q: seq<ApiRequest>): (ids: seq<nat>)
    ensures |ids| == |q| && forall i :: 0 <= i < |q| ==> ids[i] == q[i].id
  {
    seq(|q|, i requires 0 <= i < |q| => q[i].id)
  }

  lemma IdsAppend(q: seq<ApiRequest>, r: ApiRequest)
    ensures Ids(q + [r]) == Ids(q) + [r.id]
  {
    assert forall i :: 0 <= i < |q| ==> (q + [r])[i] == q[i];
  }

  predicate Increasing(s: seq<nat>)
  {
    forall i, j :: 0 <= i < j < |s| ==> s[i] < s[j]
  }

  lemma IncreasingAppend(s: seq<nat>, x: nat)
    requires Increasing(s) && forall y :: y in s ==> y < x
    ensures Increasing(s + [x])
  {
    forall i, j | 0 <= i < j < |s + [x]|
      ensures (s + [x])[i] < (s + [x])[j]
    {
      if j == |s| {
        assert (s + [x])[i] == s[i] && s[i] in s;
      }
    }
  }

  /** `queue.splice(queue.indexOf(request), 1)`: the queue without the request. */
  function Without(q: seq<ApiRequest>, id: nat): seq<ApiRequest>
  {
    if q == [] then []
    else if q[0].id == id then q[1..]
    else [q[0]] + Without(q[1..], id)
  }

  /** In a queue of increasing ids, removing a request removes exactly its id and keeps the order. */
  lemma {:induction false} WithoutRemovesOnlyId(q: seq<ApiRequest>, id: nat)
    requires Increasing(Ids(q))
    ensures Increasing(Ids(Without(q, id)))
    ensures forall x :: x in Ids(Without(q, id)) <==> x in Ids(q) && x != id
  {
    if q != [] {
      var tail := Ids(q[1..]);
      assert tail == Ids(q)[1..];
      assert Ids(q) == [q[0].id] + tail;
      if q[0].id != id {
        WithoutRemovesOnlyId(q[1..], id);
        var rest := Without(q[1..], id);
        assert Ids([q[0]] + rest) == [q[0].id] + Ids(rest);
      }
    }
  }

  function WaitersOf(listeners: map<nat, nat>, id: nat): set<nat>
  {
    set w | w in listeners && listeners[w] == id
  }

  function StopListening(listeners: map<nat, nat>, id: nat): map<nat, nat>
  {
    map w | w in listeners && listeners[w] != id :: listeners[w]
  }

  /** Every admitted request is in exactly one state: waiting (a key of listeners), released or finished. */
  ghost predicate Partitioned(listeners: map<nat, nat>, released: set<nat>, finished: set<nat>, admitted: set<nat>)
  {
    listeners.Keys !! released && listeners.Keys !! finished && released !! finished &&
    listeners.Keys + released + finished == admitted
  }

  /**
   * Requests finish in id order; a request is released only once every
   * earlier one has finished; a waiting request awaits an earlier one and
   * everything between the two has finished.
   */
  ghost predicate InOrder(listeners: map<nat, nat>, released: set<nat>, finished: set<nat>, admitted: set<nat>)
  {
    (forall f, x :: f in finished && x in admitted && x !in finished ==> f < x) &&
    (forall x, y :: x in released && y in admitted && y < x ==> y in finished) &&
    (forall w :: w in listeners ==> listeners[w] in admitted && listeners[w] < w) &&
    (forall w, y :: w in listeners && y in admitted && listeners[w] < y < w ==> y in finished)
  }

  /** The queue holds admitted requests in id order, among them every unfinished one. */
  ghost predicate QueueOk(finished: set<nat>, admitted: set<nat>, queued: seq<nat>)
  {
    Increasing(queued) &&
    (forall x :: x in queued ==> x in admitted) &&
    (forall x :: x in admitted && x !in finished ==> x in queued)
  }

  /** The completion log lists the finished requests in the order they finished. */
  ghost predicate CompletionsOk(finished: set<nat>, completions: seq<nat>)
  {
    Increasing(completions) && (forall x :: x in completions <==> x in finished)
  }

  /**
   * The enqueue chain over request ids. Ids grow with enqueue order, so
   * "earlier" is "smaller".
   */
  ghost predicate ChainOk(listeners: map<nat, nat>, released: set<nat>, finished: set<nat>,
                          admitted: set<nat>, queued: seq<nat>, completions: seq<nat>)
  {
    Partitioned(listeners, released, finished, admitted) &&
    InOrder(listeners, released, finished, admitted) &&
    QueueOk(finished, admitted, queued) &&
    CompletionsOk(finished, completions)
  }

  /** Nothing queued has finished and nobody awaits a finished request. */
  ghost predicate Healthy(listeners: map<nat, nat>, finished: set<nat>, queued: seq<nat>)
  {
    (forall x :: x in queued ==> x !in finished) &&
    (forall w :: w in listeners ==> listeners[w] !in finished)
  }

  /**
   * Enqueueing a request with a larger id than every earlier one on an
   * empty queue keeps the chain: every earlier request has finished, so the
   * new one is released at once.
   */
  lemma {:induction false} EnqueueFirstKeepsChain(listeners: map<nat, nat>, released: set<nat>, finished: set<nat>,
                                                  admitted: set<nat>, completions: seq<nat>, id: nat)
    requires ChainOk(listeners, released, finished, admitted, [], completions)
    requires forall x :: x in admitted ==> x < id
    ensures ChainOk(listeners, released + {id}, finished, admitted + {id}, [id], completions)
    ensures Healthy(listeners, finished, []) ==> Healthy(listeners, finished, [id])
  {
    assert admitted == finished;
    assert listeners.Keys == {} && released == {};
  }

  /**
   * Enqueueing a request with a larger id than every earlier one behind a
   * non-empty queue keeps the chain: the request awaits the last queued one.
   */
  lemma {:induction false} EnqueueBehindKeepsChain(listeners: map<nat, nat>, released: set<nat>, finished: set<nat>,
                                                   admitted: set<nat>, queued: seq<nat>, completions: seq<nat>, id: nat)
    requires ChainOk(listeners, released, finished, admitted, queued, completions)
    requires forall x :: x in admitted ==> x < id
    requires queued != []
    ensures ChainOk(listeners[id := queued[|queued| - 1]], released, finished, admitted + {id}, queued + [id], completions)
    ensures Healthy(listeners, finished, queued) ==>
      Healthy(listeners[id := queued[|queued| - 1]], finished, queued + [id])
  {
    var last := queued[|queued| - 1];
    forall x | x in queued
      ensures x <= last
    {
      var k :| 0 <= k < |queued| && queued[k] == x;
    }
    EnqueueBehindKeepsOrder(listeners, released, finished, admitted, queued, id);
    EnqueueBehindKeepsQueue(finished, admitted, queued, id);
    assert listeners[id := last].Keys + released + finished == admitted + {id};
  }

  /** The new request awaits the last queued one, and everything between them has finished. */
  lemma {:induction false} EnqueueBehindKeepsOrder(listeners: map<nat, nat>, released: set<nat>, finished: set<nat>,
                                                   admitted: set<nat>, queued: seq<nat>, id: nat)
    requires Partitioned(listeners, released, finished, admitted) && InOrder(listeners, released, finished, admitted)
    requires QueueOk(finished, admitted, queued) && queued != []
    requires forall x :: x in queued ==> x <= queued[|queued| - 1]
    requires forall x :: x in admitted ==> x < id
    ensures InOrder(listeners[id := queued[|queued| - 1]], released, finished, admitted + {id})
  {
    var last := queued[|queued| - 1];
    var listeners' := listeners[id := last];
    var admitted' := admitted + {id};
    forall w, y | w in listeners' && y in admitted' && listeners'[w] < y < w
      ensures y in finished
    {
      if w != id {
        assert listeners'[w] == listeners[w];
      }
    }
  }

  lemma {:induction false} EnqueueBehindKeepsQueue(finished: set<nat>, admitted: set<nat>, queued: seq<nat>, id: nat)
    requires QueueOk(finished, admitted, queued)
    requires forall x :: x in admitted ==> x < id
    ensures QueueOk(finished, admitted + {id}, queued + [id])
  {
    var queued' := queued + [id];
    forall i, j | 0 <= i < j < |queued'|
      ensures queued'[i] < queued'[j]
    {
      if j == |queued| {
        assert queued'[i] in queued;
      }
    }
    forall x | x in admitted + {id} && x !in finished
      ensures x in queued'
    {
      if x != id {
        assert x in queued;
      }
    }
  }

  /**
   * Emitting finishedRequest for a released request keeps the chain: it
   * finishes, the requests awaiting it are released, and the queue may
   * lose it (on success) or keep it (on failure).
   */
  lemma {:induction false} FinishKeepsChain(listeners: map<nat, nat>, released: set<nat>, finished: set<nat>,
                                            admitted: set<nat>, queued: seq<nat>, completions: seq<nat>,
                                            id: nat, remaining: seq<nat>)
    requires ChainOk(listeners, released, finished, admitted, queued, completions)
    requires id in released
    requires Increasing(remaining)
    requires forall x :: x in remaining ==> x in queued
    requires forall x :: x in queued && x != id ==> x in remaining
    ensures ChainOk(StopListening(listeners, id), released - {id} + WaitersOf(listeners, id), finished + {id},
                    admitted, remaining, completions + [id])
  {
    FinishKeepsOrder(listeners, released, finished, admitted, id);
    FinishKeepsCompletions(listeners, released, finished, admitted, completions, id);
    assert StopListening(listeners, id).Keys + (released - {id} + WaitersOf(listeners, id)) + (finished + {id})
      == admitted;
  }

  /** The finished request was the earliest unfinished one, and those awaiting it are next. */
  lemma {:induction false} FinishKeepsOrder(listeners: map<nat, nat>, released: set<nat>, finished: set<nat>,
                                            admitted: set<nat>, id: nat)
    requires Partitioned(listeners, released, finished, admitted) && InOrder(listeners, released, finished, admitted)
    requires id in released
    ensures InOrder(StopListening(listeners, id), released - {id} + WaitersOf(listeners, id), finished + {id}, admitted)
  {
    var listeners' := StopListening(listeners, id);
    var released' := released - {id} + WaitersOf(listeners, id);
    var finished' := finished + {id};
    forall f, x | f in finished' && x in admitted && x !in finished'
      ensures f < x
    {
      if f == id {
        assert !(x < id);
      }
    }
    forall x, y | x in released' && y in admitted && y < x
      ensures y in finished'
    {
      if x !in released {
        assert listeners[x] == id;
      }
    }
    forall w | w in listeners'
      ensures listeners'[w] in admitted && listeners'[w] < w
    {
      assert listeners'[w] == listeners[w];
    }
    forall w, y | w in listeners' && y in admitted && listeners'[w] < y < w
      ensures y in finished'
    {
      assert listeners'[w] == listeners[w];
    }
  }

  /** The finished request has a larger id than every earlier completion. */
  lemma {:induction false} FinishKeepsCompletions(listeners: map<nat, nat>, released: set<nat>, finished: set<nat>,
                                                  admitted: set<nat>, completions: seq<nat>, id: nat)
    requires Partitioned(listeners, released, finished, admitted) && InOrder(listeners, released, finished, admitted)
    requires CompletionsOk(finished, completions) && id in released
    ensures CompletionsOk(finished + {id}, completions + [id])
  {
    forall c | c in completions
      ensures c < id
    {
    }
    var completions' := completions + [id];
    forall i, j | 0 <= i < j < |completions'|
      ensures completions'[i] < completions'[j]
    {
      if j == |completions| {
        assert completions'[i] in completions;
      }
    }
  }

  /** In a chain, at most one request is released at a time. */
  lemma AtMostOneReleased(listeners: map<nat, nat>, released: set<nat>, finished: set<nat>,
                          admitted: set<nat>, queued: seq<nat>, completions: seq<nat>)
    requires ChainOk(listeners, released, finished, admitted, queued, completions)
    ensures forall x, y :: x in released && y in released ==> x == y
  {
  }

  /**
   * In a healthy chain the head of the queue is the released request: the
   * bucket always makes progress.
   */
  lemma {:induction false} HeadIsReleased(listeners: map<nat, nat>, released: set<nat>, finished: set<nat>,
                                          admitted: set<nat>, queued: seq<nat>, completions: seq<nat>)
    requires ChainOk(listeners, released, finished, admitted, queued, completions)
    requires Healthy(listeners, finished, queued)
    requires queued != []
    ensures queued[0] in released
  {
    var head := queued[0];
    forall x | x in queued
      ensures head <= x
    {
      var k :| 0 <= k < |queued| && queued[k] == x;
      assert k == 0 || queued[0] < queued[k];
    }
    assert head in admitted && head !in finished;
  }

  /** The corrected completion, which always removes the request, keeps the chain healthy. */
  lemma {:induction false} FinishKeepsHealthy(listeners: map<nat, nat>, released: set<nat>, finished: set<nat>,
                                              admitted: set<nat>, queued: seq<nat>, completions: seq<nat>,
                                              id: nat, remaining: seq<nat>)
    requires ChainOk(listeners, released, finished, admitted, queued, completions)
    requires Healthy(listeners, finished, queued)
    requires id in released
    requires forall x :: x in remaining <==> x in queued && x != id
    ensures Healthy(StopListening(listeners, id), finished + {id}, remaining)
  {
  }

  /**
   * A request waiting on a finished request stays waiting: finishing any
   * request only releases those awaiting that (unfinished) request.
   */
  lemma StalledStaysStalled(listeners: map<nat, nat>, released: set<nat>, finished: set<nat>, id: nat, w: nat)
    requires released !! finished && id in released
    requires w in listeners && listeners[w] in finished
    ensures w in StopListening(listeners, id) && StopListening(listeners, id)[w] == listeners[w]
    ensures w !in WaitersOf(listeners, id)
  {
  }

  class Bucket {
    const id: string
    var blockedUntil: Option<int>
    /** Requests enqueued and not yet removed, in enqueue order. */
    var queue: seq<ApiRequest>
    /** Waiting request id -> id of the request whose finishedRequest event it awaits. */
    var listeners: map<nat, nat>
    /** Requests whose wait is over: they may execute. */
    var released: set<nat>
    /** Requests whose finishedRequest event has been emitted. */
    var finished: set<nat>
    /** Every request ever enqueued. */
    ghost var admitted: set<nat>
    /** The finishedRequest events, in the order they were emitted. */
    ghost var completions: seq<nat>

    ghost predicate Valid()
      reads this`listeners, this`released, this`finished, this`admitted, this`queue, this`completions
    {
      ChainOk(listeners, released, finished, admitted, Ids(queue), completions)
    }

    /** What the corrected completion keeps: no queued request has finished and nobody awaits one that has. */
    ghost predicate IsHealthy()
      reads this`listeners, this`finished, this`queue
    {
      Healthy(listeners, finished, Ids(queue))
    }

    constructor (id: string)
      ensures this.id == id && blockedUntil == None && queue == []
      ensures listeners == map[] && released == {} && finished == {} && admitted == {}
      ensures Valid() && IsHealthy()
    {
      this.id := id;
      blockedUntil := None;
      queue := [];
      listeners := map[];
      released := {};
      finished := {};
      admitted := {};
      completions := [];
    }

    predicate HasPendingRequests()
      reads this`queue
    {
      |queue| > 0
    }

    /** Holds the bucket until now + durationMs, replacing any earlier block. */
    method Block(durationMs: int, now: int)
      modifies this`blockedUntil
      ensures blockedUntil == Some(now + durationMs)
    {
      blockedUntil := Some(now + durationMs);
    }

    /** Gives other the same deadline as this bucket, when this bucket is blocked. */
    method CopyBlockTo(other: Bucket, now: int)
      modifies other`blockedUntil
      ensures other.blockedUntil ==
        if IsBlockedAt(old(blockedUntil), now) then old(blockedUntil) else old(other.blockedUntil)
    {
      if IsBlockedAt(blockedUntil, now) {
        other.Block(blockedUntil.value - now, now);
      }
    }

    /**
     * Queues a request behind the last queued one: it may run at once when
     * the queue is empty, and otherwise waits for that request's
     * finishedRequest event.
     */
    method Enqueue(request: ApiRequest)
      requires Valid()
      requires forall x :: x in admitted ==> x < request.id
      modifies this`queue, this`listeners, this`released, this`admitted
      ensures Valid() && (old(IsHealthy()) ==> IsHealthy())
      ensures queue == old(queue) + [request] && admitted == old(admitted) + {request.id}
      ensures old(queue) == [] ==> released == old(released) + {request.id} && listeners == old(listeners)
      ensures old(queue) != [] ==>
        listeners == old(listeners)[request.id := old(queue)[|old(queue)| - 1].id] && released == old(released)
      ensures finished == old(finished) && completions == old(completions) && blockedUntil == old(blockedUntil)
    {
      ghost var ids := Ids(queue);
      if queue == [] {
        EnqueueFirstKeepsChain(listeners, released, finished, admitted, completions, request.id);
        released := released + {request.id};
      } else {
        EnqueueBehindKeepsChain(listeners, released, finished, admitted, ids, completions, request.id);
        assert ids[|ids| - 1] == queue[|queue| - 1].id;
        listeners := listeners[request.id := queue[|queue| - 1].id];
      }
      IdsAppend(queue, request);
      queue := queue + [request];
      admitted := admitted + {request.id};
    }
  
    /**
     * One call of execute for a released request: a blocked bucket delays
     * it until the block ends without fetching; otherwise the request is
     * fetched (with retries) and its response handled, a 429 running it
     * again once the new block ends.
     */
    method Execute(request: ApiRequest, now: int, transport: nat -> Reply) returns (outcome: Outcome, events: seq<Event>)
      requires request.id in released
      modifies this`blockedUntil, request
      ensures IsBlockedAt(old(blockedUntil), now) ==>
        outcome == Delayed(old(blockedUntil).value - now) && events == [] &&
        blockedUntil == old(blockedUntil) && request.fetchSuccess == old(request.fetchSuccess)
      ensures !IsBlockedAt(old(blockedUntil), now) ==>
        var reply := FetchFrom(transport, None, 0).reply;
        request.fetchSuccess == Some(reply.Answered?) &&
        (reply.NetworkError? ==> outcome == Rejected && events == [] && blockedUntil == old(blockedUntil)) &&
        (reply.Answered? ==>
          var handling := HandleResponse(request.id, request.route, reply.response);
          events == handling.events &&
          blockedUntil == (if handling.block.Some? then Some(now + handling.block.value) else old(blockedUntil)) &&
          outcome == (if handling.retry then Delayed(handling.block.value) else Resolved(reply.response)))
    {
      if IsBlockedAt(blockedUntil, now) {
        outcome := Delayed(blockedUntil.value - now);
        events := [];
        return;
      }
      var reply := request.Execute(transport, None);
      if reply.NetworkError? {
        outcome := Rejected;
        events := [];
        return;
      }
      var handling := HandleResponse(request.id, request.route, reply.response);
      events := handling.events;
      if handling.block.Some? {
        Block(handling.block.value, now);
      }
      if handling.retry {
        outcome := Delayed(blockedUntil.value - now);
      } else {
        outcome := Resolved(reply.response);
      }
    }

    /**
     * The end of enqueue's promise for a released request, as written: on
     * success the request leaves the queue (finishedAll when it empties);
     * on failure it stays queued. Either way its finishedRequest event
     * releases the requests awaiting it.
     */
    method Settle(request: ApiRequest, resolved: bool) returns (events: seq<Event>)
      requires Valid() && request.id in released
      modifies this`queue, this`listeners, this`released, this`finished, this`completions
      ensures Valid()
      ensures queue == if resolved then Without(old(queue), request.id) else old(queue)
      ensures events == if resolved && queue == [] then [FinishedAll] else []
      ensures finished == old(finished) + {request.id} && completions == old(completions) + [request.id]
      ensures released == old(released) - {request.id} + WaitersOf(old(listeners), request.id)
      ensures listeners == StopListening(old(listeners), request.id)
      ensures admitted == old(admitted) && blockedUntil == old(blockedUntil)
    {
      var remaining := if resolved then Without(queue, request.id) else queue;
      WithoutRemovesOnlyId(queue, request.id);
      FinishKeepsChain(listeners, released, finished, admitted, Ids(queue), completions, request.id, Ids(remaining));
      Finish(request.id, remaining);
      events := if resolved && queue == [] then [FinishedAll] else [];
    }

    /**
     * The corrected end of enqueue's promise: the request leaves the queue
     * whether it succeeded or failed, so the bucket stays healthy.
     */
    method SettleFixed(request: ApiRequest, resolved: bool) returns (events: seq<Event>)
      requires Valid() && request.id in released
      modifies this`queue, this`listeners, this`released, this`finished, this`completions
      ensures Valid() && (old(IsHealthy()) ==> IsHealthy())
      ensures queue == Without(old(queue), request.id)
      ensures events == if queue == [] then [FinishedAll] else []
      ensures finished == old(finished) + {request.id} && completions == old(completions) + [request.id]
      ensures released == old(released) - {request.id} + WaitersOf(old(listeners), request.id)
      ensures listeners == StopListening(old(listeners), request.id)
      ensures admitted == old(admitted) && blockedUntil == old(blockedUntil)
    {
      var remaining := Without(queue, request.id);
      WithoutRemovesOnlyId(queue, request.id);
      FinishKeepsChain(listeners, released, finished, admitted, Ids(queue), completions, request.id, Ids(remaining));
      if IsHealthy() {
        FinishKeepsHealthy(listeners, released, finished, admitted, Ids(queue), completions, request.id, Ids(remaining));
      }
      Finish(request.id, remaining);
      events := if queue == [] then [FinishedAll] else [];
    }

    /** Emits finishedRequest for id, leaving remaining queued. */
    method Finish(id: nat, remaining: seq<ApiRequest>)
      modifies this`queue, this`listeners, this`released, this`finished, this`completions
      ensures queue == remaining && finished == old(finished) + {id} && completions == old(completions) + [id]
      ensures released == old(released) - {id} + WaitersOf(old(listeners), id)
      ensures listeners == StopListening(old(listeners), id)
      ensures admitted == old(admitted) && blockedUntil == old(blockedUntil)
    {
      queue := remaining;
      released := released - {id} + WaitersOf(listeners, id);
      listeners := StopListening(listeners, id);
      finished := finished + {id};
      completions := completions + [id];
    }
  }

  /**
   * A request whose fetch fails stays queued after its finishedRequest
   * event: the next request enqueued awaits it and is never released, and
   * the bucket never empties.
   */
  method FailedRequestStallsSuccessor() returns (stalled: bool)
    ensures stalled
  {
    var counter := new IdCounter();
    var bucket := new Bucket("https://discord.com/api/users/123");
    var first := new ApiRequest(bucket.id, counter);
    bucket.Enqueue(first);
    var _ := bucket.Settle(first, false);
    var second := new ApiRequest(bucket.id, counter);
    bucket.Enqueue(second);
    stalled := second.id in bucket.listeners && bucket.listeners[second.id] in bucket.finished &&
      second.id !in bucket.released && bucket.HasPendingRequests();
  }

  /** With the corrected completion the next request runs at once. */
  method FailedRequestReleasesSuccessor() returns (runs: bool)
    ensures runs
  {
    var counter := new IdCounter();
    var bucket := new Bucket("https://discord.com/api/users/123");
    var first := new ApiRequest(bucket.id, counter);
    bucket.Enqueue(first);
    var _ := bucket.SettleFixed(first, false);
    var second := new ApiRequest(bucket.id, counter);
    bucket.Enqueue(second);
    runs := second.id in bucket.released && bucket.queue == [second];
  }
}
