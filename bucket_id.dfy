/**
 * Bucket ids (Bucket.resolveBucketId in src/Bucket.js, src/Bucket.ts and
 * src/BucketAsync.ts): the X-RateLimit-Bucket header joined with the route's
 * major parameters, or the route itself when there is none of them.
 */
module BucketId {
  import opened Wrappers

  predicate IsDigit(c: char)
  {
    '0' <= c <= '9'
  }

  predicate AllDigits(s: string)
  {
    forall i :: 0 <= i < |s| ==> IsDigit(s[i])
  }

  /** The longest run of digits at the start of s (what the greedy `\d+` takes). */
  function LeadingDigits(s: string): (d: string)
    ensures d <= s && AllDigits(d)
    ensures |d| == |s| || !IsDigit(s[|d|])
  {
    if s != [] && IsDigit(s[0]) then [s[0]] + LeadingDigits(s[1..]) else []
  }

  /** The pattern `key(\d+)` matches at position i of s. */
  predicate MatchesAt(s: string, key: string, i: nat)
  {
    i + |key| < |s| && s[i..i + |key|] == key && IsDigit(s[i + |key|])
  }

  /**
   * The group captured by the leftmost match of `key(\d+)` in s at or after
   * position i, or "" when the pattern does not match there.
   */
  function CaptureFrom(s: string, key: string, i: nat): (d: string)
    decreases |s| - i
    ensures AllDigits(d)
  {
    if i >= |s| then ""
    else if MatchesAt(s, key, i) then LeadingDigits(s[i + |key|..])
    else CaptureFrom(s, key, i + 1)
  }

  /** `route.match(/\/guilds\/(\d+)/)?.[1] || ''`: empty exactly when the route names no guild. */
  function GuildId(route: string): (id: string)
    ensures AllDigits(id)
    ensures id == "" <==> forall j :: 0 <= j < |route| ==> !MatchesAt(route, "/guilds/", j)
  {
    NoMatchCapturesNothing(route, "/guilds/", 0);
    CaptureFrom(route, "/guilds/", 0)
  }

  /** The same capture for `/channels/`. */
  function ChannelId(route: string): (id: string)
    ensures AllDigits(id)
    ensures id == "" <==> forall j :: 0 <= j < |route| ==> !MatchesAt(route, "/channels/", j)
  {
    NoMatchCapturesNothing(route, "/channels/", 0);
    CaptureFrom(route, "/channels/", 0)
  }

  /** The same capture for `/webhooks/`. */
  function WebhookId(route: string): (id: string)
    ensures AllDigits(id)
    ensures id == "" <==> forall j :: 0 <= j < |route| ==> !MatchesAt(route, "/webhooks/", j)
  {
    NoMatchCapturesNothing(route, "/webhooks/", 0);
    CaptureFrom(route, "/webhooks/", 0)
  }

  /** Some part of the id is known: the id is built from the parts, not the route. */
  predicate HasIdParts(route: string, header: string)
  {
    header != "" || GuildId(route) != "" || ChannelId(route) != "" || WebhookId(route) != ""
  }

  /**
   * `[header, guild, channel, webhook].join('-')` when any of them is
   * non-empty, the route otherwise.
   */
  function ResolveBucketId(route: string, header: string): (id: string)
    ensures !HasIdParts(route, header) ==> id == route
    ensures HasIdParts(route, header) ==>
      IdParts(id) == Some((header, GuildId(route), ChannelId(route), WebhookId(route)))
  {
    if HasIdParts(route, header) then
      var g, c, w := GuildId(route), ChannelId(route), WebhookId(route);
      SplitsAtLastDash(header + "-" + g + "-" + c, w);
      SplitsAtLastDash(header + "-" + g, c);
      SplitsAtLastDash(header, g);
      header + "-" + g + "-" + c + "-" + w
    else
      route
  }

  /** The text before and after the last '-' of s, None when s has no '-'. */
  function SplitLastDash(s: string): (r: Option<(string, string)>)
    ensures r.Some? ==> s == r.value.0 + "-" + r.value.1 && '-' !in r.value.1
    ensures r.None? ==> '-' !in s
  {
    if s == [] then None
    else if s[|s| - 1] == '-' then Some((s[..|s| - 1], ""))
    else match SplitLastDash(s[..|s| - 1])
      case None => None
      case Some((a, d)) => Some((a, d + [s[|s| - 1]]))
  }

  /**
   * Reads an id back as header, guild, channel and webhook by cutting it at
   * its last three '-'s (the header itself may hold a '-').
   */
  function IdParts(id: string): Option<(string, string, string, string)>
  {
    match SplitLastDash(id)
    case None => None
    case Some((rest, w)) =>
      match SplitLastDash(rest)
      case None => None
      case Some((rest', c)) =>
        match SplitLastDash(rest')
        case None => None
        case Some((h, g)) => Some((h, g, c, w))
  }

  /** A '-' followed by digits is cut exactly there. */
  lemma {:induction false} SplitsAtLastDash(a: string, d: string)
    requires AllDigits(d)
    ensures SplitLastDash(a + "-" + d) == Some((a, d))
  {
    var s := a + "-" + d;
    if d == [] {
      assert s[..|s| - 1] == a;
    } else {
      var d' := d[..|d| - 1];
      assert s[..|s| - 1] == a + "-" + d';
      assert s[|s| - 1] == d[|d| - 1];
      SplitsAtLastDash(a, d');
      assert d' + [d[|d| - 1]] == d;
    }
  }

  /** Cutting at the last '-' splits a string whose tail is all digits in only one way. */
  lemma {:induction false} SplitAtLastDash(a: string, d: string, b: string, e: string)
    requires AllDigits(d) && AllDigits(e)
    requires a + "-" + d == b + "-" + e
    ensures a == b && d == e
  {
    var l := a + "-" + d;
    var r := b + "-" + e;
    assert l[|a|] == '-' && r[|b|] == '-';
    NoDashAmongDigits(b, e, |a|);
    NoDashAmongDigits(a, d, |b|);
    assert |a| == |b|;
    assert a == l[..|a|] == r[..|b|] == b;
    assert d == l[|a| + 1..] == r[|b| + 1..] == e;
  }

  lemma NoDashAmongDigits(a: string, d: string, p: int)
    requires AllDigits(d)
    ensures |a| < p < |a| + 1 + |d| ==> (a + "-" + d)[p] != '-'
  {
    if |a| < p < |a| + 1 + |d| {
      assert (a + "-" + d)[p] == d[p - |a| - 1];
    }
  }

  /**
   * A resolved id determines the bucket header and each major parameter:
   * two requests share an id built from parts exactly when their headers,
   * guilds, channels and webhooks agree.
   */
  lemma {:induction false} ResolvedIdDeterminesParts(r1: string, h1: string, r2: string, h2: string)
    requires HasIdParts(r1, h1) && HasIdParts(r2, h2)
    ensures ResolveBucketId(r1, h1) == ResolveBucketId(r2, h2) <==>
      h1 == h2 && GuildId(r1) == GuildId(r2) && ChannelId(r1) == ChannelId(r2) &&
      WebhookId(r1) == WebhookId(r2)
  {
    if ResolveBucketId(r1, h1) == ResolveBucketId(r2, h2) {
      var a1 := h1 + "-" + GuildId(r1) + "-" + ChannelId(r1);
      var a2 := h2 + "-" + GuildId(r2) + "-" + ChannelId(r2);
      SplitAtLastDash(a1, WebhookId(r1), a2, WebhookId(r2));
      SplitAtLastDash(h1 + "-" + GuildId(r1), ChannelId(r1), h2 + "-" + GuildId(r2), ChannelId(r2));
      SplitAtLastDash(h1, GuildId(r1), h2, GuildId(r2));
    }
  }

  /** A route without major parameters and without a bucket header is its own bucket. */
  lemma FallbackIsRoute(route: string)
    requires GuildId(route) == "" && ChannelId(route) == "" && WebhookId(route) == ""
    ensures ResolveBucketId(route, "") == route
  {
  }

  /** Each major parameter is the digit run of the leftmost `/<key>/<digits>` of the route. */
  lemma {:induction false} MajorParameterIsLeftmostMatch(route: string, key: string, j: nat)
    requires MatchesAt(route, key, j)
    requires forall m :: 0 <= m < j ==> !MatchesAt(route, key, m)
    ensures CaptureFrom(route, key, 0) == LeadingDigits(route[j + |key|..])
    ensures CaptureFrom(route, key, 0) != ""
  {
    CaptureAt(route, key, 0, j);
  }

  lemma {:induction false} CaptureAt(s: string, key: string, i: nat, j: nat)
    requires i <= j && MatchesAt(s, key, j)
    requires forall m :: i <= m < j ==> !MatchesAt(s, key, m)
    decreases j - i
    ensures CaptureFrom(s, key, i) == LeadingDigits(s[j + |key|..])
  {
    if i < j {
      CaptureAt(s, key, i + 1, j);
    }
  }

  /** Nothing is captured exactly when the pattern does not match at or after i. */
  lemma {:induction false} NoMatchCapturesNothing(s: string, key: string, i: nat)
    decreases |s| - i
    ensures CaptureFrom(s, key, i) == "" <==> forall j :: i <= j < |s| ==> !MatchesAt(s, key, j)
  {
    if i < |s| {
      if MatchesAt(s, key, i) {
        assert s[i + |key|..][0] == s[i + |key|];
      } else {
        NoMatchCapturesNothing(s, key, i + 1);
      }
    }
  }
}
