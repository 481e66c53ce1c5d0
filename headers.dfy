/**
 * The rate-limit headers of a Discord response and the durations the buckets
 * derive from them (src/Bucket.js, src/BucketAsync.ts and src/Bucket.ts).
 */
module RateLimitHeaders {
  import opened Wrappers

  /**
   * The rate-limit headers of one response as read through its header
   * container (which matches names without regard to case). A string header
   * that is absent reads as "". A numeric header holds what JavaScript's
   * `Number(...)` makes of it, `None` standing for NaN.
   */
  datatype Headers = Headers(
    bucket: string,            // X-RateLimit-Bucket
    global: string,            // X-RateLimit-Global
    remaining: Option<int>,    // X-RateLimit-Remaining
    resetAfter: Option<int>,   // X-RateLimit-Reset-After, in seconds
    retryAfter: Option<int>)   // Retry-After, in milliseconds

  /** The value every duration helper returns when the headers give no duration. */
  const NoDuration: int := -1

  /** `!!headers.get('X-RateLimit-Bucket')`: the header is present and non-empty. */
  predicate HasBucketLimits(h: Headers)
  {
    h.bucket != ""
  }

  /** `!!headers.get('X-RateLimit-Global')`: any non-empty value, "false" included. */
  predicate IsGloballyBlocked(h: Headers)
  {
    h.global != ""
  }

  /**
   * How long the bucket must wait, in ms: Reset-After times 1000 when the
   * bucket has no remaining requests or the caller ignores Remaining (a 429),
   * NoDuration otherwise or when Reset-After is not a number.
   */
  function BucketBlockDurationMs(h: Headers, ignoreRemaining: bool): (ms: int)
    ensures ms != NoDuration <==>
      (h.remaining == Some(0) || ignoreRemaining) && h.resetAfter.Some?
    ensures ms != NoDuration ==> ms == h.resetAfter.value * 1000
  {
    if h.remaining == Some(0) || ignoreRemaining then
      match h.resetAfter
      case Some(seconds) => seconds * 1000
      case None => NoDuration
    else
      NoDuration
  }

  /** Retry-After in ms, NoDuration when it is not a number. */
  function GlobalBlockDurationMs(h: Headers): (ms: int)
    ensures h.retryAfter.Some? ==> ms == h.retryAfter.value
    ensures h.retryAfter.None? ==> ms == NoDuration
  {
    h.retryAfter.UnwrapOr(NoDuration)
  }

  /**
   * How long to hold further requests: a global limit takes priority over
   * the bucket's own limit, and headers without either give NoDuration.
   */
  function BlockedDuration(h: Headers, ignoreRemaining: bool): (ms: int)
    ensures IsGloballyBlocked(h) ==> ms == GlobalBlockDurationMs(h)
    ensures !IsGloballyBlocked(h) && HasBucketLimits(h) ==>
      ms == BucketBlockDurationMs(h, ignoreRemaining)
    ensures !IsGloballyBlocked(h) && !HasBucketLimits(h) ==> ms == NoDuration
  {
    if IsGloballyBlocked(h) then GlobalBlockDurationMs(h)
    else if HasBucketLimits(h) then BucketBlockDurationMs(h, ignoreRemaining)
    else NoDuration
  }

  /** Bucket.ts's version: only an exhausted bucket (Remaining 0) is blocked. */
  function LegacyBucketBlockDurationMs(h: Headers): (ms: int)
    ensures ms != NoDuration <==> h.remaining == Some(0) && h.resetAfter.Some?
    ensures ms != NoDuration ==> ms == h.resetAfter.value * 1000
  {
    if h.remaining == Some(0) then
      match h.resetAfter
      case Some(seconds) => seconds * 1000
      case None => NoDuration
    else
      NoDuration
  }

  /** Bucket.ts's version of BlockedDuration, without the ignore-Remaining flag. */
  function LegacyBlockedDuration(h: Headers): (ms: int)
    ensures IsGloballyBlocked(h) ==> ms == GlobalBlockDurationMs(h)
    ensures !IsGloballyBlocked(h) && HasBucketLimits(h) ==> ms == LegacyBucketBlockDurationMs(h)
    ensures !IsGloballyBlocked(h) && !HasBucketLimits(h) ==> ms == NoDuration
  {
    if IsGloballyBlocked(h) then GlobalBlockDurationMs(h)
    else if HasBucketLimits(h) then LegacyBucketBlockDurationMs(h)
    else NoDuration
  }

  /** Bucket.ts's helpers are the later helpers with Remaining honoured. */
  lemma LegacyIsRemainingHonoured(h: Headers)
    ensures LegacyBlockedDuration(h) == BlockedDuration(h, false)
  {
  }

  /**
   * Ignoring Remaining (as a 429 does) never loses a duration the headers
   * give, and only adds one when Reset-After is present.
   */
  lemma IgnoringRemainingOnlyAdds(h: Headers)
    ensures BlockedDuration(h, false) != NoDuration ==>
      BlockedDuration(h, true) == BlockedDuration(h, false)
    ensures BlockedDuration(h, true) != BlockedDuration(h, false) ==>
      !IsGloballyBlocked(h) && HasBucketLimits(h) && h.resetAfter.Some? &&
      BlockedDuration(h, false) == NoDuration
  {
  }

  /** A bucket duration is a whole number of seconds, so it is never NoDuration by accident. */
  lemma BucketDurationIsWholeSeconds(h: Headers, ignoreRemaining: bool)
    ensures BucketBlockDurationMs(h, ignoreRemaining) == NoDuration ||
      BucketBlockDurationMs(h, ignoreRemaining) % 1000 == 0
  {
  }
}
