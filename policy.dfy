/**
 * The decisions the handlers (src/RESTHandler.ts, src/RESTHandler.js,
 * src/RESTHandlerAsync.ts) and buckets share: deadlines, option defaults,
 * the route-to-bucket choice, bucket recognition and the invalid-request
 * threshold.
 */
module Policy {
  import opened Wrappers

  /** Why every bucket is being held (constants/global-block-type.ts). */
  datatype GlobalBlockType = InvalidRequestBlock | GlobalRateLimitBlock | CloudflareRateLimitBlock

  /** Ten minutes: the invalid-request block and the counter's reset period. */
  const TenMinutesMs: int := 1000 * 60 * 10
  /** Three hours: the block after a 429 that names no duration. */
  const CloudflareFallbackMs: int := 3 * 60 * 60 * 1000
  const DefaultInvalidRequestsThreshold: int := 5000
  const DefaultGlobalBlockDurationMultiple: int := 1

  /** A deadline is in force until the clock reaches it (the timer then clears it). */
  predicate IsBlockedAt(blockedUntil: Option<int>, now: int)
  {
    blockedUntil.Some? && now < blockedUntil.value
  }

  /** JavaScript's `option || fallback` on a numeric option: absent, NaN and 0 take the fallback. */
  function OrDefault(option: Option<int>, fallback: int): (v: int)
    ensures option.Some? && option.value != 0 ==> v == option.value
    ensures option.None? || option == Some(0) ==> v == fallback
  {
    if option.Some? && option.value != 0 then option.value else fallback
  }

  /**
   * A bucket's deadline after a global block of durationMs at now
   * (blockBucketsByDuration): a bucket that is not blocked takes the global
   * deadline, a blocked one keeps whichever deadline is later.
   */
  function GlobalDeadline(blockedUntil: Option<int>, now: int, durationMs: int): (d: Option<int>)
    ensures d == blockedUntil || d == Some(now + durationMs)
    ensures d.Some? && d.value >= now + durationMs
    ensures IsBlockedAt(blockedUntil, now) ==> d.value >= blockedUntil.value
  {
    if GlobalBlockApplies(blockedUntil, now, durationMs) then Some(now + durationMs) else blockedUntil
  }

  /** The global block replaces the bucket's own: it is not blocked, or the global block ends later. */
  predicate GlobalBlockApplies(blockedUntil: Option<int>, now: int, durationMs: int)
  {
    !IsBlockedAt(blockedUntil, now) || now + durationMs > blockedUntil.value
  }

  function Max(a: int, b: int): int { if a < b then b else a }

  /** The longer of the two blocks wins and the global deadline is always met. */
  lemma GlobalDeadlineIsLonger(blockedUntil: Option<int>, now: int, durationMs: int)
    ensures var d := GlobalDeadline(blockedUntil, now, durationMs);
      d.Some? &&
      (IsBlockedAt(blockedUntil, now) ==> d.value == Max(blockedUntil.value, now + durationMs)) &&
      (!IsBlockedAt(blockedUntil, now) ==> d.value == now + durationMs)
  {
  }

  /** A global block never shortens a bucket's block, and holds the bucket at least as long as asked. */
  lemma GlobalDeadlineNeverShortens(blockedUntil: Option<int>, now: int, durationMs: int, t: int)
    requires durationMs > 0 && now <= t
    ensures IsBlockedAt(blockedUntil, t) ==> IsBlockedAt(GlobalDeadline(blockedUntil, now, durationMs), t)
    ensures t < now + durationMs ==> IsBlockedAt(GlobalDeadline(blockedUntil, now, durationMs), t)
  {
  }

  /** Which bucket a request for a route goes to (getBucketForUrl). */
  datatype Route = UseTemporary | UsePermanent | CreateTemporary

  /**
   * A route with a known bucket uses it, unless its temporary bucket still
   * holds requests, which must drain first to keep their order. A route
   * without a known bucket uses its temporary bucket, made on first use.
   */
  function ChooseBucket(hasPermanent: bool, hasTemporary: bool, temporaryPending: bool): (r: Route)
    ensures r == UsePermanent <==> hasPermanent && !(hasTemporary && temporaryPending)
    ensures r == CreateTemporary <==> !hasPermanent && !hasTemporary
    ensures r == UseTemporary ==> hasTemporary
  {
    if hasPermanent then
      if hasTemporary && temporaryPending then UseTemporary else UsePermanent
    else if hasTemporary then UseTemporary
    else CreateTemporary
  }

  /** What learning a route's bucket id does (recognizeURLBucket). */
  datatype Recognition = CreatePermanent | MapRoute | Nothing

  /**
   * An unknown id gets a new permanent bucket (and the route's temporary
   * bucket is scheduled for retirement); a known id is mapped to a route
   * that has none yet; a route that already has a bucket keeps it.
   */
  function Recognize(idKnown: bool, routeMapped: bool): (r: Recognition)
    ensures r == CreatePermanent <==> !idKnown
    ensures r == MapRoute <==> idKnown && !routeMapped
  {
    if !idKnown then CreatePermanent
    else if !routeMapped then MapRoute
    else Nothing
  }

  /**
   * One invalid request (increaseInvalidRequestCount): the new count, and
   * whether it is the one that reaches the threshold.
   */
  function CountInvalid(count: int, threshold: int): (r: (int, bool))
    ensures r.0 == count + 1
    ensures r.1 <==> r.0 == threshold
  {
    (count + 1, count + 1 == threshold)
  }

  /** How many of n further invalid requests, from count, reach the threshold. */
  function ThresholdHits(count: int, threshold: int, n: nat): nat
    decreases n
  {
    if n == 0 then 0
    else
      var (next, hit) := CountInvalid(count, threshold);
      (if hit then 1 else 0) + ThresholdHits(next, threshold, n - 1)
  }

  /**
   * Between two resets of the counter, invalid requests set off at most one
   * threshold block: exactly one when the count passes the threshold.
   */
  lemma {:induction false} OneBlockPerWindow(count: int, threshold: int, n: nat)
    ensures ThresholdHits(count, threshold, n) == if count < threshold <= count + n then 1 else 0
    decreases n
  {
    if n > 0 {
      OneBlockPerWindow(count + 1, threshold, n - 1);
    }
  }

  /** From a fresh count, the block comes with exactly the threshold-th invalid request. */
  lemma {:induction false} BlockAtThreshold(threshold: int, n: nat)
    requires threshold >= 1
    ensures ThresholdHits(0, threshold, n) == (if n >= threshold then 1 else 0)
  {
    OneBlockPerWindow(0, threshold, n);
  }
}
