/**
 * The earlier bucket (src/Bucket.ts). Its block, copyBlockTo, enqueue chain
 * and completion are those of src/Bucket.js and are the class
 * Bucket.Bucket; what differs is how it handles a response: the bucket id
 * it reports is the raw X-RateLimit-Bucket header, a 429 honours
 * Remaining, and a 429 without any duration throws instead of blocking.
 */
module LegacyBucket {
  import opened Wrappers
  import opened RateLimitHeaders
  import opened Requests
  import opened Policy
  import Bucket

  /** What this bucket emits; its rate-limit events carry less than Bucket.js's. */
  datatype Event =
    | RecognizeUrlBucket(url: string, bucketId: string)
    | GlobalRateLimit(durationMs: int)
    | RateLimit(requestId: nat)

  datatype Next = RunAgain | Resolve | Throw

  /** What the bucket does with a response: the events, the block it starts and how the call ends. */
  datatype Handling = Handling(events: seq<Event>, block: Option<int>, next: Next)

  /** recognizeURLBucket: the header itself is the bucket id. */
  function RecognitionEvents(url: string, h: Headers): (es: seq<Event>)
    ensures HasBucketLimits(h) ==> es == [RecognizeUrlBucket(url, h.bucket)]
    ensures !HasBucketLimits(h) ==> es == []
  {
    if HasBucketLimits(h) then [RecognizeUrlBucket(url, h.bucket)] else []
  }

  /** execute after the fetch: handle429Response for a 429, handleResponse otherwise. */
  function HandleResponse(requestId: nat, route: string, response: Response): (r: Handling)
    ensures var rec := RecognitionEvents(route, response.headers);
      |rec| <= |r.events| && r.events[..|rec|] == rec
    ensures r.next == RunAgain ==> r.block.Some?
  {
    var h := response.headers;
    var recognized := RecognitionEvents(route, h);
    var d := LegacyBlockedDuration(h);
    if response.status == 429 then
      if d == NoDuration then
        Handling(recognized, None, Throw)
      else
        Handling(recognized + [if IsGloballyBlocked(h) then GlobalRateLimit(d) else RateLimit(requestId)], Some(d), RunAgain)
    else
      Handling(recognized, if d == NoDuration then None else Some(d), Resolve)
  }

  /**
   * A 429 whose headers give a duration announces a global limit with that
   * duration, or a bucket limit for the request, blocks the bucket for it
   * and runs the request again; one that gives none (a bucket with
   * requests remaining included) announces nothing beyond recognition,
   * blocks nothing and fails the request.
   */
  lemma RateLimitedResponse(requestId: nat, route: string, response: Response)
    requires response.status == 429
    ensures var r := HandleResponse(requestId, route, response);
      var h := response.headers;
      var d := BlockedDuration(h, false);
      (d == NoDuration ==>
        r.next == Throw && r.block == None && r.events == RecognitionEvents(route, h)) &&
      (d != NoDuration ==>
        r.next == RunAgain && r.block == Some(d) &&
        r.events == RecognitionEvents(route, h) +
                    [if IsGloballyBlocked(h) then GlobalRateLimit(d) else RateLimit(requestId)])
  {
    LegacyIsRemainingHonoured(response.headers);
  }

  /** Other responses resolve, blocking exactly when the headers give a duration; none counts as invalid here. */
  lemma OtherResponseResolves(requestId: nat, route: string, response: Response)
    requires response.status != 429
    ensures var r := HandleResponse(requestId, route, response);
      var d := LegacyBlockedDuration(response.headers);
      r.next == Resolve && (r.block.Some? <==> d != NoDuration) && (r.block.Some? ==> r.block.value == d) &&
      r.events == RecognitionEvents(route, response.headers)
  {
  }

  /**
   * Bucket.ts's 429 blocks exactly when Bucket.js's would block without
   * its three-hour fallback and with Remaining honoured.
   */
  lemma BlocksLikeLaterBucketWhenRemainingIsZero(requestId: nat, route: string, response: Response)
    requires response.status == 429 && response.headers.remaining == Some(0)
    ensures var legacy := HandleResponse(requestId, route, response);
      var later := Bucket.HandleResponse(requestId, route, response);
      legacy.block.Some? ==> legacy.block == later.block
  {
  }

  /** execute of Bucket.ts for a released request of bucket. */
  method Execute(bucket: Bucket.Bucket, request: ApiRequest, now: int, transport: nat -> Reply)
    returns (outcome: Bucket.Outcome, events: seq<Event>)
    requires request.id in bucket.released
    modifies bucket`blockedUntil, request
    ensures IsBlockedAt(old(bucket.blockedUntil), now) ==>
      outcome == Bucket.Delayed(old(bucket.blockedUntil).value - now) && events == [] &&
      bucket.blockedUntil == old(bucket.blockedUntil) && request.fetchSuccess == old(request.fetchSuccess)
    ensures !IsBlockedAt(old(bucket.blockedUntil), now) ==>
      var reply := FetchFrom(transport, None, 0).reply;
      request.fetchSuccess == Some(reply.Answered?) &&
      (reply.NetworkError? ==> outcome == Bucket.Rejected && events == [] && bucket.blockedUntil == old(bucket.blockedUntil)) &&
      (reply.Answered? ==>
        var handling := HandleResponse(request.id, request.route, reply.response);
        events == handling.events &&
        bucket.blockedUntil == (if handling.block.Some? then Some(now + handling.block.value) else old(bucket.blockedUntil)) &&
        outcome == match handling.next
          case RunAgain => Bucket.Delayed(handling.block.value)
          case Resolve => Bucket.Resolved(reply.response)
          case Throw => Bucket.Rejected)
  {
    if IsBlockedAt(bucket.blockedUntil, now) {
      outcome := Bucket.Delayed(bucket.blockedUntil.value - now);
      events := [];
      return;
    }
    var reply := request.Execute(transport, None);
    if reply.NetworkError? {
      outcome := Bucket.Rejected;
      events := [];
      return;
    }
    var handling := HandleResponse(request.id, request.route, reply.response);
    events := handling.events;
    if handling.block.Some? {
      bucket.Block(handling.block.value, now);
    }
    match handling.next
    case RunAgain => outcome := Bucket.Delayed(bucket.blockedUntil.value - now);
    case Resolve => outcome := Bucket.Resolved(reply.response);
    case Throw => outcome := Bucket.Rejected;
  }
}
