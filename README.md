# Discord-REST rate limiting in Dafny

This project models the rate-limit core of Discord-REST: the library that
sends requests to Discord's HTTP API and keeps the application inside
Discord's rate limits. It models:

- **Response headers.** How the library reads `X-RateLimit-*` and
  `Retry-After` to get a bucket id and a block duration (`headers.dfy`,
  `bucket_id.dfy`).
- **Buckets.** Each bucket runs its requests one at a time and in order, and
  blocks itself when Discord says so. There are three versions:
  - `bucket.dfy` covers `Bucket.js`;
  - `bucket_legacy.dfy` covers `Bucket.ts`;
  - `bucket_async.dfy` covers `BucketAsync.ts`.
- **Registries and handlers.** A registry maps each route to a bucket: a
  temporary bucket keyed by the route until Discord names the route's
  permanent bucket. The handler counts invalid requests and blocks every
  bucket on a global limit. There are three versions:
  - `registry.dfy` and `rest_handler.dfy` cover `RESTHandler.ts`;
  - `registry.dfy` and `rest_handler_js.dfy` cover `RESTHandler.js`;
  - `registry_async.dfy` and `rest_handler_async.dfy` cover
    `RESTHandlerAsync.ts`.

  `RESTHandler.ts` imports `./Bucket`, which is `Bucket.ts`. Its listeners
  (src/RESTHandler.ts:196-220), however, follow the event protocol of
  `Bucket.js`: they subscribe to `invalidRequest` and `cloudflareRateLimit`,
  which `Bucket.ts` never emits, and read the duration of `globalRateLimit`
  as its second argument, where `Bucket.ts` passes the duration alone
  (src/Bucket.ts:11, 309). The model therefore runs both `RESTHandler.ts`
  and `RESTHandler.js` over the bucket of `bucket.dfy` and its events.
  `Bucket.ts`'s own 429 events (`globalRateLimit(duration)` and
  `rateLimit(request)`) are modelled in `bucket_legacy.dfy` and are not
  wired to a handler.
- **The request** (`requests.dfy`). Its id counter, its retry policy and its
  debug name.

`policy.dfy` holds the decisions the handlers share:
- deadlines;
- option defaults;
- the choice of bucket for a route;
- bucket recognition;
- the invalid-request threshold.

How the model treats time, events and state:
- **Time.** The clock is an explicit `now` (ms). A deadline `Some(t)` is in
  force while `now < t`, so a timer that clears a deadline is the deadline
  passing.
- **Events.** Emitted events are returned as lists. The listeners a handler
  registers on its buckets are the handler method `OnBucketEvent`, called
  with a bucket's events.
- **Mutable state.** Buckets, registries, handlers and requests are classes
  whose methods update their fields.
- **Headers.** Header values are parsed `Option<int>`s, where `None` is
  JavaScript's `NaN`. Header helpers, routing and recognition are pure
  functions.

`Bucket.js` keeps a promise chain: each request waits for the
`finishedRequest` event of the request queued before it. The model keeps
this chain as explicit state:
- `listeners` maps each waiting request to the request it awaits;
- `released` holds the requests whose wait is over;
- `finished` holds the requests whose event has fired.

`Bucket.ChainOk` states the invariant every operation keeps. Requests are
released and finish one at a time, in id (that is, enqueue) order.

## Model

| member | source | states |
|---|---|---|
| RateLimitHeaders.BucketBlockDurationMs | src/Bucket.js:140-154 | Reset-After × 1000 exactly when Remaining is 0 or ignored and Reset-After is a number; -1 otherwise |
| RateLimitHeaders.GlobalBlockDurationMs | src/Bucket.js:169-176 | Retry-After in ms, -1 when it is not a number |
| RateLimitHeaders.BlockedDuration | src/Bucket.js:184-196 | a global limit (IsGloballyBlocked: the global header is non-empty, src/Bucket.js:158-161) takes priority with Retry-After, else the bucket duration when the bucket header is present (HasBucketLimits, src/Bucket.js:126-129), else -1 |
| RateLimitHeaders.LegacyBucketBlockDurationMs | src/Bucket.ts:98-114 | Reset-After × 1000 only when Remaining is 0 (no ignore flag); -1 otherwise or when unparsable |
| RateLimitHeaders.LegacyBlockedDuration | src/Bucket.ts:152-161 | global flag first, then the bucket header, else -1 |
| RateLimitHeaders.LegacyIsRemainingHonoured | src/Bucket.ts:152-161 | the older helper equals the later one with Remaining honoured |
| RateLimitHeaders.IgnoringRemainingOnlyAdds | src/Bucket.js:140-154 | ignoring Remaining never loses a duration; it only adds one when Reset-After is present and the bucket is not exhausted |
| RateLimitHeaders.BucketDurationIsWholeSeconds | src/Bucket.js:140-154 | a bucket duration is -1 or a whole number of seconds |
| BucketId.LeadingDigits | src/Bucket.js:105-107 | the greedy `\d+`: a digit prefix followed by a non-digit or the end |
| BucketId.CaptureFrom | src/Bucket.js:105-107 | what a `key(\d+)` match captures is all digits |
| BucketId.GuildId | src/Bucket.js:105 | the guild id is all digits, and empty exactly when no `/guilds/` followed by a digit occurs in the route; MajorParameterIsLeftmostMatch gives its exact value |
| BucketId.ChannelId | src/Bucket.js:106 | the same for `/channels/` |
| BucketId.WebhookId | src/Bucket.js:107 | the same for `/webhooks/` |
| BucketId.ResolveBucketId | src/Bucket.js:103-116 | with no header and no major parameter the id is the route; otherwise cutting the id at its last three '-' gives back the header, guild, channel and webhook (IdParts), so ResolvedIdDeterminesParts and FallbackIsRoute characterise it |
| BucketId.SplitLastDash | src/Bucket.js:110-111 | the text before and after the last '-', which holds no '-'; None exactly when there is no '-' |
| BucketId.SplitsAtLastDash | src/Bucket.js:110-111 | a '-' followed by digits only is where the last cut falls |
| BucketId.ResolvedIdDeterminesParts | src/Bucket.js:103-116 | two ids built from parts are equal exactly when header, guild, channel and webhook all agree (the join with '-' is unambiguous) |
| BucketId.FallbackIsRoute | src/Bucket.js:103-116 | with no header and no major parameter the id is the route itself |
| BucketId.MajorParameterIsLeftmostMatch | src/Bucket.js:105-107 | each major parameter is the whole digit run after the leftmost `/guilds/`, `/channels/` or `/webhooks/` followed by a digit |
| BucketId.NoMatchCapturesNothing | src/BucketAsync.ts:96-107 | a major parameter is empty exactly when its pattern matches nowhere |
| BucketId.SplitAtLastDash | src/Bucket.js:110-111 | cutting an id at its last '-' before an all-digit tail is unique |
| Policy.OrDefault | src/RESTHandler.ts:159-160 | JavaScript's or-default: an absent option or 0 takes the fallback, any other value is kept |
| Policy.GlobalDeadline | src/RESTHandler.ts:317-329 | the new deadline is the bucket's own or now + d, never earlier than now + d, and never earlier than a deadline in force; GlobalDeadlineIsLonger gives its exact value |
| Policy.GlobalDeadlineIsLonger | src/RESTHandler.ts:316-331 | an unblocked bucket gets now + d; a blocked one gets the later of its deadline and now + d |
| Policy.GlobalDeadlineNeverShortens | src/RESTHandler.js:235-251 | a global block never ends a bucket's block earlier and holds it at least until now + d |
| Policy.ChooseBucket | src/RESTHandler.ts:350-368 | permanent bucket exactly when known and the temporary one has nothing pending; create exactly when neither exists; else the existing temporary bucket |
| Policy.Recognize | src/RESTHandler.ts:264-273 | create exactly when the id is unknown; map the route exactly when the id is known and the route unmapped; else nothing |
| Policy.CountInvalid | src/RESTHandler.ts:182-191 | the count goes up by one, and the threshold is hit exactly when the new count equals it |
| Policy.OneBlockPerWindow | src/RESTHandler.ts:182-191 | between resets, n invalid requests trigger exactly one block if the count passes the threshold, none otherwise |
| Policy.BlockAtThreshold | src/RESTHandler.ts:182-191 | from a fresh count the block comes exactly once the threshold-th request is counted |
| Requests.RetryDelay | src/APIRequest.ts:56-60 | attempt 0 waits the base delay (1500 ms when absent or 0); each later attempt waits twice as long as the one before |
| Requests.RetryOn | src/APIRequest.ts:61-77 | retried exactly when attempt < 3, a response was received and its status is 422 or at least 500 |
| Requests.FetchEndsOnUnretriedReply | src/APIRequest.ts:61-64 | a fetch makes one to four attempts and hands back its last reply, one that retryOn refuses |
| Requests.NetworkErrorIsFinal | src/APIRequest.ts:68-70 | a network error ends the fetch after one attempt |
| Requests.PersistentServerErrorTakesFourAttempts | src/APIRequest.ts:56-64 | a server that keeps answering 422/5xx is asked 4 times, with 7 base delays of waiting in all |
| Requests.IdCounter.constructor | src/APIRequest.ts:33 | the shared counter starts at 0 |
| Requests.ApiRequest.constructor | src/APIRequest.ts:41-45 | the id is the counter's previous value plus one, and fetchSuccess starts undefined |
| Requests.ConsecutiveIds | src/APIRequest.ts:44 | two requests made one after another get consecutive, strictly increasing ids |
| Requests.ApiRequest.Execute | src/APIRequest.ts:50-88 | the reply is the retrying fetch's last reply; fetchSuccess records whether it was a response |
| Requests.NatToString | src/APIRequest.ts:98 | a non-empty run of decimal digits |
| Requests.ParseNatToString | src/APIRequest.ts:98 | reading the printed id back gives the id |
| Requests.TrailingDigits | src/APIRequest.ts:98 | the longest all-digit suffix of a string: the character before it, when there is one, is not a digit |
| Requests.TrailingDigitsAfterHash | src/APIRequest.ts:98 | the digits after the last '#' are exactly the printed ones |
| Requests.DebugNameRoundTrip | src/APIRequest.ts:97-99 | `route (#id)` starts with the route, and the id reads back from it |
| Requests.ApiRequest.ToString | src/APIRequest.ts:97-99 | the debug name starts with the route and carries the id, which reads back |
| Bucket.RecognitionEvents | src/Bucket.js:204-212 | recognizeURLBucket is emitted, with the resolved id, exactly when the bucket header is present and non-empty (HasBucketLimits, src/Bucket.js:126-129) |
| Bucket.HandleResponse | src/Bucket.js:356-366 | recognition comes first; the request runs again exactly on a 429, and then a block is set |
| Bucket.InvalidRequestStatuses | src/Bucket.js:383-444 | invalidRequest is emitted, once and last, exactly for 401, 403 and 429 |
| Bucket.RateLimitedResponseBlocks | src/Bucket.js:383-419 | a 429 emits globalRateLimit or rateLimit with the duration read ignoring Remaining; -1 becomes a 3-hour block with cloudflareRateLimit; the request runs again |
| Bucket.OtherResponseResolves | src/Bucket.js:423-444 | any other response resolves, blocking exactly when the headers give a duration |
| Bucket.WithoutRemovesOnlyId | src/Bucket.js:316 | the splice removes exactly the finished request and keeps the others in order |
| Bucket.EnqueueFirstKeepsChain | src/Bucket.js:284-306 | a request enqueued on an empty queue is released at once, and the chain invariant holds |
| Bucket.EnqueueBehindKeepsChain | src/Bucket.js:284-306 | a request enqueued behind others awaits the tail, and the chain invariant (and health) holds |
| Bucket.EnqueueBehindKeepsOrder | src/Bucket.js:292-306 | the new request awaits the last queued one, and every request between the two has finished |
| Bucket.EnqueueBehindKeepsQueue | src/Bucket.js:292-293 | the queue stays in id order and holds every unfinished request |
| Bucket.FinishKeepsChain | src/Bucket.js:315-335 | finishedRequest for the released request keeps the chain, whether or not the queue drops the request |
| Bucket.FinishKeepsOrder | src/Bucket.js:375-379 | the finished request was the earliest unfinished one; the requests awaiting it are released next |
| Bucket.FinishKeepsCompletions | src/Bucket.js:375-379 | requests finish in increasing id (enqueue) order |
| Bucket.AtMostOneReleased | src/Bucket.js:300-305 | at most one request of a bucket is released at a time |
| Bucket.HeadIsReleased | src/Bucket.js:284-335 | in a healthy bucket the head of the queue is the released request (progress) |
| Bucket.FinishKeepsHealthy | src/Bucket.js:315-335 | the corrected completion, which always drops the request, keeps the bucket healthy |
| Bucket.StalledStaysStalled | src/Bucket.js:263-275 | a request awaiting an already-finished request is never released |
| Bucket.Bucket.constructor | src/Bucket.js:62-70 | a new bucket is unblocked with an empty queue and chain |
| Bucket.Bucket.Block | src/Bucket.js:216-226 | the deadline becomes now + d and replaces any earlier one, longer or shorter |
| Bucket.Bucket.CopyBlockTo | src/Bucket.js:233-241 | nothing when this bucket is unblocked; otherwise the target's deadline becomes this bucket's |
| Bucket.Bucket.Enqueue | src/Bucket.js:284-340 | the request is appended; it is released when the queue was empty and otherwise awaits the previous tail; the chain invariant and health hold |
| Bucket.Bucket.Execute | src/Bucket.js:344-370 | a blocked bucket delays the request by the time left without fetching; otherwise the request is fetched and the response handled as HandleResponse says |
| Bucket.Bucket.Settle | src/Bucket.js:315-335 | as written: only a resolved request leaves the queue; finishedAll exactly when that empties it; finishedRequest always |
| Bucket.Bucket.SettleFixed | src/Bucket.js:315-335 | corrected: the request always leaves the queue; finishedAll exactly when the queue empties; the bucket stays healthy |
| Bucket.Bucket.Finish | src/Bucket.js:375-379 | finishedRequest releases exactly the requests awaiting the finished one |
| Bucket.FailedRequestStallsSuccessor | src/Bucket.js:315-335 | as written, a failed request stays queued and the next request enqueued is never released |
| Bucket.FailedRequestReleasesSuccessor | src/Bucket.js:315-335 | with the corrected completion the next request runs at once |
| LegacyBucket.RecognitionEvents | src/Bucket.ts:167-178 | the raw header is emitted as the bucket id, only when it is present and non-empty |
| LegacyBucket.HandleResponse | src/Bucket.ts:300-330 | recognition first; a request runs again only with a block set |
| LegacyBucket.RateLimitedResponse | src/Bucket.ts:300-317 | a 429 without a duration rejects, blocks nothing and emits only the recognition event; one with a duration emits globalRateLimit(duration) when the global flag is set and rateLimit(request) otherwise, blocks for the duration and runs the request again |
| LegacyBucket.OtherResponseResolves | src/Bucket.ts:322-330 | other responses resolve, blocking exactly when the headers give a duration, and count nothing as invalid |
| LegacyBucket.BlocksLikeLaterBucketWhenRemainingIsZero | src/Bucket.ts:300-317 | with Remaining 0, a 429 that blocks blocks exactly as Bucket.js's would |
| LegacyBucket.Execute | src/Bucket.ts:271-285 | a blocked bucket delays without fetching; otherwise fetch, then resolve, run again or reject as the handling says |
| BucketAsync.RecognitionEvents | src/BucketAsync.ts:207-217 | recognizeURLBucket with the resolved id, exactly when the bucket header is present |
| BucketAsync.HandleResponse | src/BucketAsync.ts:302-372 | recognition first; a job that got a response never ends as a failed fetch; a 429 reports globalRateLimit (global header set) or rateLimit with its duration right after the recognition events |
| BucketAsync.JobCompletesUnlessLimited | src/BucketAsync.ts:352-372 | a job completes (jobFinished) exactly when the response is not a 429 and gives no block; every block fails the job with RateLimitError |
| BucketAsync.RateLimitedResponse | src/BucketAsync.ts:317-347 | a 429 emits the recognition events, then globalRateLimit or rateLimit with its duration, then a 3-hour Cloudflare limit when there is no duration (neither blocking nor counting as invalid) or invalidRequest when there is one (and blocks) |
| BucketAsync.ForbiddenCountsAsInvalid | src/BucketAsync.ts:358-360 | 401 and 403 emit invalidRequest |
| BucketAsync.AsyncBucket.constructor | src/BucketAsync.ts:52-66 | a new bucket is unblocked, with an idle, unpaused queue |
| BucketAsync.AsyncBucket.Block | src/BucketAsync.ts:222-232 | pauses the queue and sets the deadline to now + d |
| BucketAsync.AsyncBucket.BlockTimerFires | src/BucketAsync.ts:229-231 | as written: the timer only clears the deadline |
| BucketAsync.AsyncBucket.BlockTimerFiresFixed | src/BucketAsync.ts:44-47 | corrected: clears the deadline, starts the queue again and runs the oldest waiting job when idle |
| BucketAsync.AsyncBucket.CopyBlockTo | src/BucketAsync.ts:240-248 | nothing when unblocked; otherwise the target takes this deadline and is paused |
| BucketAsync.AsyncBucket.Enqueue | src/BucketAsync.ts:276-290 | a paused queue drops the request; otherwise it is added as the last job, started at once when the queue is idle |
| BucketAsync.AsyncBucket.Clear | src/BucketAsync.ts:295-297 | the waiting jobs are dropped; the running and done ones stay |
| BucketAsync.AsyncBucket.JobDone | src/BucketAsync.ts:52-66 | with concurrency 1 the next waiting job starts unless the queue is paused; finishedAll when the queue is idle |
| BucketAsync.AsyncBucket.Execute | src/BucketAsync.ts:302-312 | fetch then handle; a block pauses the queue and sets now + d |
| BucketAsync.BlockedBucketDropsRequests | src/BucketAsync.ts:276-279 | once blocked, a bucket drops a request enqueued afterwards |
| BucketAsync.ExpiredBlockStillDropsRequests | src/BucketAsync.ts:222-232 | as written, after the block's timer fires the bucket still drops every request |
| BucketAsync.ExpiredBlockRunsRequests | src/BucketAsync.ts:222-232 | with the corrected timer, the next request runs once the block is over |
| Registry.Registry.constructor | src/RESTHandler.ts:112-128 | all three maps start empty |
| Registry.Registry.CreateBucket | src/RESTHandler.ts:225-231 | a new permanent bucket stored under its id and under the route |
| Registry.Registry.CreateTemporaryBucket | src/RESTHandler.ts:236-241 | a new bucket whose id is the route, stored under the route |
| Registry.Registry.GetBucketForUrl | src/RESTHandler.ts:350-368 | returns the bucket ChooseBucket picks; a bucket is made only when the route has neither kind |
| Registry.Registry.Admit | src/RESTHandler.ts:399-401 | the chosen bucket enqueues the request, and every bucket's chain stays sound |
| Registry.Registry.AdmitForUrl | src/RESTHandler.ts:392-401 | the request joins the end of the queue of the bucket ChooseBucket picks; the temporary map is unchanged unless a temporary bucket is created for the route; every other bucket keeps its queue, listeners and chain |
| Registry.Registry.Complete | src/Bucket.js:315-335 | a bucket finishes a request as enqueue's promise does: only a resolved request leaves the queue, and finishedAll comes exactly when that empties it; the registry stays sound |
| Registry.Registry.ScheduleTemporaryBucketRemoval | src/RESTHandler.ts:247-258 | a hand-over is registered only when the route has a temporary bucket |
| Registry.Registry.RecognizeUrlBucket | src/RESTHandler.ts:264-273 | an unknown id: new permanent bucket under id and route, and the temporary bucket's retirement scheduled; a known id: only the unmapped route is mapped; else nothing |
| Registry.Registry.TemporaryBucketDrained | src/RESTHandler.ts:250-255 | on finishedAll the temporary bucket's block is copied to each scheduled bucket, and its map entry is deleted; every other bucket, temporary or retired, keeps its deadline |
| Registry.Registry.BlockBucketsByDuration | src/RESTHandler.ts:316-331 | every permanent bucket gets GlobalDeadline (the longer block wins); temporary and retired buckets keep their deadline |
| Registry.CopyBlockToEach | src/RESTHandler.js:190-193 | each scheduled target takes the temporary deadline when it is in force |
| RestHandler.RestHandler.constructor | src/RESTHandler.ts:156-175 | threshold 5000 and multiple 1 by default; the ten-minute reset runs unless NODE_ENV is test or delayOnInvalidThreshold is false |
| RestHandler.RestHandler.IntervalTick | src/RESTHandler.ts:170-172 | the count returns to 0 exactly when the reset interval runs |
| RestHandler.RestHandler.BlockGloballyByDuration | src/RESTHandler.ts:280-309 | d is scaled by the multiple; every permanent bucket gets GlobalDeadline; globallyBlockedUntil is now + scaled; globalBlock is emitted; the timer is replaced; temporary and retired buckets keep their deadline |
| RestHandler.RestHandler.QueueBlockTimerFires | src/RESTHandler.ts:303-308 | the global block ends and globalRestore is emitted with its type |
| RestHandler.RestHandler.IncreaseInvalidRequestCount | src/RESTHandler.ts:182-191 | count + 1; exactly at the threshold a ten-minute (scaled) INVALID_REQUEST global block with its timer; below it no deadline, globallyBlockedUntil or timer changes |
| RestHandler.RestHandler.OnBucketEvent | src/RESTHandler.ts:196-220 | recognition creates a permanent bucket and schedules the temporary one's retirement, maps the route, or changes nothing, as Recognize decides; a global or Cloudflare limit gives every permanent bucket GlobalDeadline for the scaled duration, sets globallyBlockedUntil and the timer, and leaves temporary buckets alone; rateLimit is re-emitted; invalidRequest is counted, re-emitted with the count, and at the threshold blocks every permanent bucket; finishedAll of a scheduled temporary bucket retires it and hands its deadline, when in force, to each scheduled bucket. Each case keeps the rest: count, globallyBlockedUntil and timer change only on the global, Cloudflare and invalidRequest cases; the maps only on recognition and finishedAll; no deadline on recognition or rateLimit; temporary and retired buckets never |
| RestHandler.RestHandler.Fetch | src/RESTHandler.ts:377-402 | waits out what is left of a global block, then the new request joins the bucket ChooseBucket picks; the temporary map changes only when a temporary bucket is created; every other bucket keeps its queue, listeners and chain |
| RestHandler.RestHandler.FinishRequest | src/RESTHandler.ts:247-258 | a resolved request leaves its bucket, a failed one stays queued (as Bucket.js does); when a resolved request empties a scheduled temporary bucket, the bucket is retired, its scheduled removals are dropped, and its deadline, when in force, passes to each scheduled bucket; the count, globallyBlockedUntil, the timer and every temporary or retired bucket's deadline stay as they were |
| RestHandlerJs.RestHandlerJs.constructor | src/RESTHandler.js:74-124 | threshold 5000 and multiple 1 by default; the reset runs unless delayOnInvalidThreshold is false |
| RestHandlerJs.RestHandlerJs.IntervalTick | src/RESTHandler.js:119-121 | the count returns to 0 exactly when the reset interval runs |
| RestHandlerJs.RestHandlerJs.BlockGloballyByDuration | src/RESTHandler.js:218-229 | every permanent bucket gets GlobalDeadline for the unscaled d; the shared queue pauses until now + d; temporary and retired buckets keep their deadline |
| RestHandlerJs.RestHandlerJs.RestartTimerFires | src/RESTHandler.js:225-228 | the shared queue starts again |
| RestHandlerJs.RestHandlerJs.IncreaseInvalidRequestCount | src/RESTHandler.js:130-137 | count + 1; exactly at the threshold an unscaled ten-minute block and invalidRequestsThreshold; below it no deadline, pause or restart changes |
| RestHandlerJs.RestHandlerJs.OnBucketEvent | src/RESTHandler.js:141-161 | recognition follows Recognize as in the TS handler; global and Cloudflare durations are scaled by the multiple, give every permanent bucket GlobalDeadline, pause the p-queue until now + scaled and are re-emitted scaled; invalidRequest is counted and re-emitted, and at the threshold blocks every permanent bucket for ten minutes; finishedAll of a scheduled temporary bucket retires it and hands its deadline over. Each case keeps the rest: count, pause and restart change only on the global, Cloudflare and invalidRequest cases; the maps only on recognition and finishedAll; no deadline on recognition or rateLimit; temporary and retired buckets never |
| RestHandlerJs.RestHandlerJs.Fetch | src/RESTHandler.js:295-308 | a new request and the bucket ChooseBucket picks at fetch time are queued as one p-queue job; the temporary map changes only when a temporary bucket is created |
| RestHandlerJs.RestHandlerJs.RunNextJob | src/RESTHandler.js:308 | as written: the job enqueues into the bucket chosen at fetch time; every other bucket keeps its queue, listeners and chain |
| RestHandlerJs.RestHandlerJs.RunNextJobFixed | src/RESTHandlerAsync.ts:168-171 | corrected: the bucket is chosen when the job starts, so the request joins the end of a held bucket's queue; the temporary map changes only when a temporary bucket is created; every other bucket is unchanged |
| RestHandlerJs.RestHandlerJs.FinishRequest | src/RESTHandler.js:185-197 | a resolved request leaves its bucket, a failed one stays queued; when a resolved request empties a scheduled temporary bucket, it is retired, its scheduled removals are dropped, and its deadline, when in force, passes to each scheduled bucket; the count, pause, restart and every temporary or retired bucket's deadline stay as they were |
| RestHandlerJs.QueueBehindRunning | src/RESTHandler.js:295-308 | a second fetch for a route waits in the p-queue bound to the route's temporary bucket |
| RestHandlerJs.DrainWhileQueued | src/RESTHandler.js:185-197 | that temporary bucket drains and is retired while the job still waits |
| RestHandlerJs.OrphanedJob | src/RESTHandler.js:306-308 | as written, the waiting job enqueues into the retired bucket |
| RestHandlerJs.OrphanedJobFixed | src/RESTHandlerAsync.ts:168-171 | corrected, it joins the route's permanent bucket |
| RegistryAsync.AsyncRegistry.constructor | src/RESTHandlerAsync.ts:107-123 | all three maps start empty |
| RegistryAsync.AsyncRegistry.CreateBucket | src/RESTHandlerAsync.ts:223-234 | a new permanent bucket stored under its id and under the route |
| RegistryAsync.AsyncRegistry.CreateTemporaryBucket | src/RESTHandlerAsync.ts:239-250 | a new bucket whose id is the route, stored under the route |
| RegistryAsync.AsyncRegistry.GetBucketForUrl | src/RESTHandlerAsync.ts:366-384 | returns the bucket ChooseBucket picks; a bucket is made only when the route has neither kind |
| RegistryAsync.AsyncRegistry.Admit | src/RESTHandlerAsync.ts:171 | the bucket adds the job unless its queue is paused |
| RegistryAsync.AsyncRegistry.AdmitForUrl | src/RESTHandlerAsync.ts:168-171 | the worker resolves the bucket when the item starts and enqueues into it; the temporary map changes only when a temporary bucket is created; every other bucket keeps its waiting, running and done jobs |
| RegistryAsync.AsyncRegistry.JobDone | src/BucketAsync.ts:63-65 | a held bucket finishes its running job; the next waiting job starts unless the bucket is paused; finishedAll exactly when nothing waits |
| RegistryAsync.AsyncRegistry.ScheduleTemporaryBucketRemoval | src/RESTHandlerAsync.ts:256-267 | a hand-over is registered only when the route has a temporary bucket |
| RegistryAsync.AsyncRegistry.RecognizeUrlBucket | src/RESTHandlerAsync.ts:273-282 | the same promotion rules as RESTHandler.ts |
| RegistryAsync.AsyncRegistry.TemporaryBucketDrained | src/RESTHandlerAsync.ts:259-265 | each scheduled bucket takes the temporary deadline (and is paused) when it is in force; the temporary bucket leaves; temporary and retired buckets keep deadline and pause |
| RegistryAsync.AsyncRegistry.BlockByDuration | src/RESTHandlerAsync.ts:327-339 | one bucket gets GlobalDeadline and is paused exactly when the global block applies |
| RegistryAsync.AsyncRegistry.BlockBucketsByDuration | src/RESTHandlerAsync.ts:326-341 | every permanent bucket gets GlobalDeadline and is paused when the global block applies; temporary and retired buckets keep deadline and pause |
| RegistryAsync.AsyncRegistry.BlockAll | src/RESTHandlerAsync.ts:298-309 | every permanent bucket gets GlobalDeadline and is paused when the global block applies; their waiting jobs are cleared exactly when asked; temporary and retired buckets are untouched |
| RegistryAsync.AsyncRegistry.ClearBuckets | src/RESTHandlerAsync.ts:343-347 | every permanent bucket's waiting jobs are dropped; temporary and retired buckets keep theirs |
| RegistryAsync.CopyBlockToEach | src/RESTHandlerAsync.ts:259-265 | each target takes the temporary deadline, and is paused, when it is in force |
| RestHandlerAsync.RestHandlerAsync.constructor | src/RESTHandlerAsync.ts:162-175 | threshold 5000, multiple 1 and 35 requests per second by default |
| RestHandlerAsync.RestHandlerAsync.BlockGloballyByDuration | src/RESTHandlerAsync.ts:289-320 | scaled d; every permanent bucket gets GlobalDeadline and is paused when the block applies; the queue pauses; buckets are cleared exactly when clearQueueAfterGlobalBlock is set and the type is CLOUDFLARE_RATE_LIMIT; temporary and retired buckets keep deadline, pause and waiting jobs |
| RestHandlerAsync.RestHandlerAsync.QueueBlockTimerFires | src/RESTHandlerAsync.ts:314-318 | the queue starts again and globalRestore is emitted with the same type |
| RestHandlerAsync.RestHandlerAsync.IncreaseInvalidRequestCount | src/RESTHandlerAsync.ts:182-191 | count + 1, never reset; exactly at the threshold a ten-minute (scaled) INVALID_REQUEST global block that gives every permanent bucket GlobalDeadline and pauses it when the block applies; below it no bucket, pause or timer changes; temporary and retired buckets never change |
| RestHandlerAsync.RestHandlerAsync.OnBucketEvent | src/RESTHandlerAsync.ts:196-218 | recognition follows Recognize; a global or Cloudflare limit gives every permanent bucket GlobalDeadline and its pause, clears their waiting jobs exactly when ClearsBuckets holds, and pauses the queue; invalidRequest is counted and at the threshold blocks the buckets the same way; jobFinished is re-emitted as jobCompleted; finishedAll of a scheduled temporary bucket retires it, and each scheduled bucket takes its deadline and a pause when it is in force. Each case keeps the rest: count, queue pause and timer change only on the global, Cloudflare and invalidRequest cases; the maps only on recognition and finishedAll; no bucket's deadline, pause or waiting jobs on recognition, rateLimit or jobFinished, no waiting jobs on finishedAll; temporary and retired buckets never |
| RestHandlerAsync.RestHandlerAsync.Fetch | src/RESTHandlerAsync.ts:393-405 | a new request is added to the end of the handler's queue, with no bucket chosen yet |
| RestHandlerAsync.RestHandlerAsync.RunNextItem | src/RESTHandlerAsync.ts:168-171 | the oldest item is dequeued and joins the bucket ChooseBucket picks at that moment; the temporary map changes only when a temporary bucket is created; every other bucket keeps its waiting, running and done jobs |
| RestHandlerAsync.RestHandlerAsync.JobDone | src/RESTHandlerAsync.ts:256-267 | a job ends and the bucket's next waiting job starts unless it is paused; when nothing waits in a scheduled temporary bucket it is retired, its scheduled removals are dropped, and each scheduled bucket takes its deadline and a pause when it is in force; the count, queue pause, timer and every temporary or retired bucket stay as they were |

## Left out

- Message-queue producers and consumers (`RESTConsumer`, `RESTProducer`), the web entry point and examples: they are AMQP/HTTP plumbing around the handlers.
- `util/RateLimitedQueue.ts`, p-queue's interval cap (30 per 1000 ms in `RESTHandler.js`) and the async-sema `rateLimit()` of `RESTHandler.ts`: they throttle concurrency in real time. The model runs at most the next queued item; `maxRequestsPerSecond` is only stored.
- Timers, promises, `EventEmitter` wiring and interleavings: time is a parameter, timer expiry is a method (`QueueBlockTimerFires`, `RestartTimerFires`, `BlockTimerFires`), and events are returned values. Concurrent requests across buckets are not modelled.
- Request timeouts (p-queue's five-minute job timeout and `RequestTimeoutError`), `APIRequestLifetime`, long-running-request events and debug history/loggers: they are diagnostics.
- The network call: `fetchWithRetry` is modelled as a function over the network's replies to each attempt (`Requests.FetchFrom`). Headers are already parsed: fractional Reset-After seconds, `Number(null) === 0` and other JavaScript number coercions are not modelled.
- `removeAllListeners` on a retired temporary bucket: the retired bucket simply leaves the registry, so its later events reach no handler method.
- The literal text of event names and error messages.
- RestHandler.RestHandler.Fetch: enqueues the request when the fetch is made; the time between resolving the bucket and enqueueing (spent in `await this.rateLimit()`, src/RESTHandler.ts:393-401) is not modelled. It is the same window as the second Findings row: a temporary bucket chosen before the wait can drain and retire during it, and the request then joins a bucket the handler no longer holds.
- RestHandlerJs.JobsOk and RestHandlerAsync.ItemsOk (the invariants behind their Valid) ask that each handler hold the ids after its last started request consecutively, so the handler is the only user of the shared `APIRequest.lastId` counter (src/APIRequest.ts:33). Two handlers in one process that draw ids from the same counter, which the source allows, are not modelled: their queued ids would be increasing but not consecutive.
- Options.globalBlockDurationMultiple (of RestHandler, RestHandlerJs and RestHandlerAsync) is an integer. The option is a JavaScript number, so a fractional multiple such as 1.5 is possible in the source; the model does not express it, and its scaled durations are whole milliseconds.

## Findings

| source | as written | input that shows it | evidently intended | confidence | as-written member | corrected member |
|---|---|---|---|---|---|---|
| src/Bucket.js:315-335 | the request is spliced out of the queue only after a successful execute; a failed request stays queued while its finishedRequest event still fires | request A's fetch throws; request B is then enqueued and awaits A's finishedRequest, which has already fired | every settled request leaves the queue, so its successor runs (the same code is in src/Bucket.ts:248-263) | not executed | Bucket.FailedRequestStallsSuccessor | Bucket.FailedRequestReleasesSuccessor |
| src/RESTHandler.js:306-308 | the bucket is chosen when fetch is called, and the p-queue job enqueues into it later | a job waits in the paused p-queue while its route's temporary bucket drains and is retired; the job then enqueues into the retired bucket, which no listener hears | choose the bucket when the job starts, as src/RESTHandlerAsync.ts:168-171 does | not executed | RestHandlerJs.OrphanedJob | RestHandlerJs.OrphanedJobFixed |
| src/BucketAsync.ts:222-232 | block pauses the bucket's queue, and its timer only clears blockedUntil; nothing starts the queue again | any 429 with a duration blocks the bucket; after the timer fires, enqueue (276-279) still sees a paused queue and drops every request | the timer allows processing again (comment at lines 44-47) by starting the queue | not executed | BucketAsync.ExpiredBlockStillDropsRequests | BucketAsync.ExpiredBlockRunsRequests |
