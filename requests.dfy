/**
 * One request to Discord's API (src/APIRequest.ts): its id, its retry
 * policy over the network's replies and its debug name.
 */
module Requests {
  import opened Wrappers
  import opened RateLimitHeaders
  import opened BucketId
  import Policy

  datatype Response = Response(status: int, headers: Headers)

  /** What the network gives one attempt: a response, or an error and no response. */
  datatype Reply = Answered(response: Response) | NetworkError

  const DefaultBaseAttemptDelayMs: int := 1500
  /** retryOn refuses from this attempt on (attempts are numbered from 0). */
  const LastRetriedAttempt: nat := 2

  function Pow2(n: nat): nat
  {
    if n == 0 then 1 else 2 * Pow2(n - 1)
  }

  /**
   * The wait before attempt + 1 (retryDelay): the base delay (1500 ms
   * unless given non-zero) doubled for every attempt already made.
   */
  function RetryDelay(attempt: nat, baseAttemptDelay: Option<int>): (ms: int)
    ensures attempt == 0 ==> ms == Policy.OrDefault(baseAttemptDelay, DefaultBaseAttemptDelayMs)
    ensures attempt > 0 ==> ms == 2 * RetryDelay(attempt - 1, baseAttemptDelay)
  {
    var base := Policy.OrDefault(baseAttemptDelay, DefaultBaseAttemptDelayMs);
    if attempt > 0 then
      DoublingDelay(Pow2(attempt - 1), base);
      Pow2(attempt) * base
    else
      Pow2(attempt) * base
  }

  lemma DoublingDelay(p: int, base: int)
    ensures (2 * p) * base == 2 * (p * base)
  {
  }

  /**
   * Whether a reply is tried again (retryOn): only a response with status
   * 422 or 5xx, and only for the first three attempts; a network error
   * never is.
   */
  function RetryOn(attempt: nat, reply: Reply): (retry: bool)
    ensures retry <==>
      attempt <= LastRetriedAttempt && reply.Answered? &&
      (reply.response.status == 422 || reply.response.status >= 500)
  {
    if attempt >= 3 then false
    else
      match reply
      case NetworkError => false
      case Answered(response) =>
        if response.status == 0 then false
        else response.status == 422 || response.status >= 500
  }

  /** The reply the caller finally sees, how many attempts it took and the time spent waiting between them. */
  datatype Fetched = Fetched(reply: Reply, attempts: nat, waitedMs: int)

  /**
   * The retrying fetch from attempt on, where transport(k) is the network's
   * reply to attempt k: a retried reply is followed by a wait of
   * RetryDelay(attempt) and the next attempt.
   */
  function FetchFrom(transport: nat -> Reply, baseAttemptDelay: Option<int>, attempt: nat): (f: Fetched)
    decreases if attempt <= LastRetriedAttempt then LastRetriedAttempt + 1 - attempt else 0
  {
    var reply := transport(attempt);
    if RetryOn(attempt, reply) then
      var rest := FetchFrom(transport, baseAttemptDelay, attempt + 1);
      Fetched(rest.reply, rest.attempts + 1, RetryDelay(attempt, baseAttemptDelay) + rest.waitedMs)
    else
      Fetched(reply, 1, 0)
  }

  /**
   * Every fetch makes between one and four attempts and hands back the
   * reply of its last attempt, a reply that is not retried.
   */
  lemma {:induction false} FetchEndsOnUnretriedReply(transport: nat -> Reply, base: Option<int>, attempt: nat)
    requires attempt <= LastRetriedAttempt + 1
    decreases LastRetriedAttempt + 1 - attempt
    ensures var f := FetchFrom(transport, base, attempt);
      1 <= f.attempts <= LastRetriedAttempt + 2 - attempt &&
      f.reply == transport(attempt + f.attempts - 1) &&
      !RetryOn(attempt + f.attempts - 1, f.reply)
  {
    if RetryOn(attempt, transport(attempt)) {
      FetchEndsOnUnretriedReply(transport, base, attempt + 1);
    }
  }

  /** A network error ends the fetch at once. */
  lemma NetworkErrorIsFinal(transport: nat -> Reply, base: Option<int>)
    requires transport(0) == NetworkError
    ensures FetchFrom(transport, base, 0) == Fetched(NetworkError, 1, 0)
  {
  }

  /**
   * A server that keeps answering 422 or 5xx is asked four times, with
   * waits of one, two and four base delays (1500, 3000 and 6000 ms by
   * default), and its fourth reply is handed back.
   */
  lemma {:induction false} PersistentServerErrorTakesFourAttempts(transport: nat -> Reply, base: Option<int>)
    requires forall k ::
      transport(k).Answered? &&
      (transport(k).response.status == 422 || transport(k).response.status >= 500)
    ensures var f := FetchFrom(transport, base, 0);
      f.attempts == 4 && f.reply == transport(3) &&
      f.waitedMs == 7 * Policy.OrDefault(base, DefaultBaseAttemptDelayMs)
  {
    var b := Policy.OrDefault(base, DefaultBaseAttemptDelayMs);
    assert FetchFrom(transport, base, 3) == Fetched(transport(3), 1, 0);
    assert FetchFrom(transport, base, 2) == Fetched(transport(3), 2, 4 * b);
    assert FetchFrom(transport, base, 1) == Fetched(transport(3), 3, 6 * b);
  }

  /** The static id counter shared by every request (APIRequest.lastId). */
  class IdCounter {
    var lastId: nat

    constructor ()
      ensures lastId == 0
    {
      lastId := 0;
    }
  }

  function DigitChar(d: nat): char
    requires d < 10
  {
    ('0' as int + d) as char
  }

  function DigitValue(c: char): nat
    requires IsDigit(c)
  {
    c as int - '0' as int
  }

  /** The decimal digits of n, as a template literal prints it. */
  function NatToString(n: nat): (s: string)
    ensures |s| >= 1 && AllDigits(s)
  {
    if n < 10 then [DigitChar(n)] else NatToString(n / 10) + [DigitChar(n % 10)]
  }

  function ParseNat(s: string): nat
    requires AllDigits(s)
  {
    if s == [] then 0 else 10 * ParseNat(s[..|s| - 1]) + DigitValue(s[|s| - 1])
  }

  lemma {:induction false} ParseNatToString(n: nat)
    ensures ParseNat(NatToString(n)) == n
  {
    var s := NatToString(n);
    if n >= 10 {
      assert s[..|s| - 1] == NatToString(n / 10);
      ParseNatToString(n / 10);
    }
  }

  /** The longest run of digits at the end of s. */
  function TrailingDigits(s: string): (d: string)
    ensures AllDigits(d) && |d| <= |s| && d == s[|s| - |d|..]
    ensures |d| < |s| ==> !IsDigit(s[|s| - |d| - 1])
  {
    if s != [] && IsDigit(s[|s| - 1]) then TrailingDigits(s[..|s| - 1]) + [s[|s| - 1]] else []
  }

  lemma {:induction false} TrailingDigitsAfterHash(a: string, d: string)
    requires AllDigits(d)
    ensures TrailingDigits(a + "#" + d) == d
    decreases |d|
  {
    if d != [] {
      assert (a + "#" + d)[..|a + "#" + d| - 1] == a + "#" + d[..|d| - 1];
      TrailingDigitsAfterHash(a, d[..|d| - 1]);
    } else {
      assert a + "#" + d == a + "#";
    }
  }

  /** The request id written in a debug name, read back from its tail `#<digits>)`. */
  function IdInDebugName(s: string): Option<nat>
  {
    if s != [] && s[|s| - 1] == ')' && TrailingDigits(s[..|s| - 1]) != "" then
      Some(ParseNat(TrailingDigits(s[..|s| - 1])))
    else
      None
  }

  function DebugName(route: string, id: nat): string
  {
    route + " (#" + NatToString(id) + ")"
  }

  lemma DebugNameRoundTrip(route: string, id: nat)
    ensures |DebugName(route, id)| > |route| && DebugName(route, id)[..|route|] == route
    ensures IdInDebugName(DebugName(route, id)) == Some(id)
  {
    var digits := NatToString(id);
    var s := DebugName(route, id);
    assert s[..|s| - 1] == (route + " (") + "#" + digits;
    TrailingDigitsAfterHash(route + " (", digits);
    ParseNatToString(id);
  }

  /** One request: its route, its id and whether its fetch has succeeded yet. */
  class ApiRequest {
    const route: string
    const id: nat
    var fetchSuccess: Option<bool>

    /** Takes the next id from the shared counter. */
    constructor (route: string, counter: IdCounter)
      modifies counter
      ensures this.route == route && fetchSuccess == None
      ensures counter.lastId == old(counter.lastId) + 1 && id == counter.lastId
    {
      this.route := route;
      counter.lastId := counter.lastId + 1;
      id := counter.lastId;
      fetchSuccess := None;
    }

    /**
     * Runs the retrying fetch over the network's replies: it resolves with
     * the last reply when that is a response, whatever its status, and
     * records whether it did.
     */
    method Execute(transport: nat -> Reply, baseAttemptDelay: Option<int>) returns (reply: Reply)
      modifies this
      ensures reply == FetchFrom(transport, baseAttemptDelay, 0).reply
      ensures fetchSuccess == Some(reply.Answered?)
    {
      reply := FetchFrom(transport, baseAttemptDelay, 0).reply;
      fetchSuccess := Some(reply.Answered?);
    }

    /** The debug name: the route followed by ` (#<id>)`, from which the id can be read back. */
    function ToString(): (s: string)
      ensures |s| > |route| && s[..|route|] == route
      ensures IdInDebugName(s) == Some(id)
    {
      DebugNameRoundTrip(route, id);
      DebugName(route, id)
    }
  }

  /** Requests made one after another get strictly increasing ids, starting at 1. */
  method ConsecutiveIds(counter: IdCounter) returns (first: ApiRequest, second: ApiRequest)
    modifies counter
    ensures first.id == old(counter.lastId) + 1 && second.id == first.id + 1
  {
    first := new ApiRequest("route", counter);
    second := new ApiRequest("route", counter);
  }
}
