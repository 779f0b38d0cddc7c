/** The anti-fraud gate consulted before a user may activate a promocode
    (solution/user/antifraud.py): a per-email verdict cache with an expiry in
    front of an upstream validation service that is retried once. */
module Antifraud {
  import opened Common

  /** What the cache holds for one email: the verdict and until when it may
      be reused. */
  datatype CacheEntry = CacheEntry(cacheUntil: Instant, success: bool)

  /** The body of one POST to the upstream `/api/validate`. */
  datatype Request = Request(userEmail: string, promoId: string)

  /** An upstream reply: its status, its `ok` field and its `cache_until`
      field (`None` when absent or empty). */
  datatype Response = Response(statusCode: int, ok: bool, cacheUntil: Option<Instant>)

  const HTTP_OK: int := 200

  /** `_is_cache_until_passed`: the expiry lies strictly before now. */
  predicate CacheUntilPassed(cacheUntil: Instant, now: Instant)
  {
    cacheUntil < now
  }

  /** The cached verdict for `email` may be reused at `now`. */
  predicate Hit(cache: map<string, CacheEntry>, email: string, now: Instant)
  {
    email in cache && !CacheUntilPassed(cache[email].cacheUntil, now)
  }

  /** The outcome of one `antifraud_success` call: the verdict, how many
      requests went upstream and the cache afterwards. */
  datatype Decision = Decision(success: bool, posts: nat, cache: map<string, CacheEntry>)

  /** The reply `_get_antifraud_response` hands back when the service would
      answer `first` and then `second`: the second one only after a non-200. */
  function FinalResponse(first: Response, second: Response): (r: Response)
    ensures r == first || r == second
    ensures first.statusCode == HTTP_OK ==> r == first
    ensures r.statusCode != HTTP_OK ==> first.statusCode != HTTP_OK && second.statusCode != HTTP_OK
  {
    if first.statusCode != HTTP_OK then second else first
  }

  /** `antifraud_success` on the cache `cache` at time `now`, when the service
      would answer `first` to the next request and `second` to the one after. */
  function Decide(cache: map<string, CacheEntry>, email: string, now: Instant,
                  first: Response, second: Response): (d: Decision)
    ensures d.posts <= 2
    ensures d.posts == 0 <==> Hit(cache, email, now)
    ensures d.posts == 2 <==> !Hit(cache, email, now) && first.statusCode != HTTP_OK
    ensures Hit(cache, email, now) ==> d.success == cache[email].success && d.cache == cache
    ensures !Hit(cache, email, now) && FinalResponse(first, second).statusCode != HTTP_OK ==>
              !d.success && d.cache == cache
    ensures forall k :: k != email ==> (k in d.cache <==> k in cache)
    ensures forall k :: k != email && k in cache ==> d.cache[k] == cache[k]
  {
    if Hit(cache, email, now) then
      Decision(cache[email].success, 0, cache)
    else
      var posts := if first.statusCode != HTTP_OK then 2 else 1;
      var reply := FinalResponse(first, second);
      if reply.statusCode != HTTP_OK then
        Decision(false, posts, cache)
      else if reply.cacheUntil.Some? then
        Decision(reply.ok, posts, cache[email := CacheEntry(reply.cacheUntil.value, reply.ok)])
      else
        Decision(reply.ok, posts, cache)
  }

  /** A 200 reply decides the verdict by its `ok`; the cache learns it exactly
      when the reply names an expiry. */
  lemma DecideOnOk(cache: map<string, CacheEntry>, email: string, now: Instant,
                   first: Response, second: Response)
    requires !Hit(cache, email, now)
    requires FinalResponse(first, second).statusCode == HTTP_OK
    ensures Decide(cache, email, now, first, second).success == FinalResponse(first, second).ok
    ensures FinalResponse(first, second).cacheUntil.Some? ==>
              Decide(cache, email, now, first, second).cache ==
              cache[email := CacheEntry(FinalResponse(first, second).cacheUntil.value,
                                        FinalResponse(first, second).ok)]
    ensures FinalResponse(first, second).cacheUntil.None? ==>
              Decide(cache, email, now, first, second).cache == cache
  {
  }

  /** A verdict cached until `until` is reused, without any request, by the
      next call for that email made at any instant up to and including
      `until`. */
  lemma CachedVerdictReused(cache: map<string, CacheEntry>, email: string, now: Instant,
                            first: Response, second: Response, until: Instant,
                            later: Instant, next1: Response, next2: Response)
    requires !Hit(cache, email, now)
    requires FinalResponse(first, second).statusCode == HTTP_OK
    requires FinalResponse(first, second).cacheUntil == Some(until)
    requires later <= until
    ensures var d := Decide(cache, email, now, first, second);
            var e := Decide(d.cache, email, later, next1, next2);
            e.posts == 0 && e.success == d.success && e.cache == d.cache
  {
    var d := Decide(cache, email, now, first, second);
    assert d.cache[email] == CacheEntry(until, FinalResponse(first, second).ok);
  }

  /** A cached entry is trusted up to and including its expiry instant and
      never after it. */
  lemma CacheTrustedThroughExpiry(cache: map<string, CacheEntry>, email: string, now: Instant,
                                  first: Response, second: Response)
    requires email in cache
    ensures Decide(cache, email, now, first, second).posts == 0 <==> now <= cache[email].cacheUntil
  {
  }

  /** An entry that has expired is never trusted: the service is asked again. */
  lemma ExpiredEntryAsksUpstream(cache: map<string, CacheEntry>, email: string, now: Instant,
                                 first: Response, second: Response)
    requires email in cache && cache[email].cacheUntil < now
    ensures Decide(cache, email, now, first, second).posts >= 1
  {
  }

  /** The gate in front of the upstream service. `cache` is the Redis store
      keyed by email, `sent` every request posted so far, and `service(n)` the
      reply the service gives to the request numbered `n`. */
  class AntifraudClient {
    var cache: map<string, CacheEntry>
    var sent: seq<Request>
    const service: nat -> Response

    constructor (service: nat -> Response)
      ensures cache == map[] && sent == [] && this.service == service
    {
      cache := map[];
      sent := [];
      this.service := service;
    }

    /** `_get_user_cached_info`: the stored entry, or nothing. */
    method GetUserCachedInfo(email: string) returns (info: Option<CacheEntry>)
      ensures info.Some? <==> email in cache
      ensures info.Some? ==> info.value == cache[email]
    {
      if email in cache {
        info := Some(cache[email]);
      } else {
        info := None;
      }
    }

    /** `_set_user_cached_info`: overwrite the entry for `email`. */
    method SetUserCachedInfo(email: string, cacheUntil: Instant, success: bool)
      modifies this`cache
      ensures cache == old(cache)[email := CacheEntry(cacheUntil, success)]
    {
      cache := cache[email := CacheEntry(cacheUntil, success)];
    }

    /** One POST to the service. */
    method Post(request: Request) returns (response: Response)
      modifies this`sent
      ensures sent == old(sent) + [request]
      ensures response == service(|old(sent)|)
    {
      response := service(|sent|);
      sent := sent + [request];
    }

    /** `_get_antifraud_response`: a second POST of the same body when the
        first reply is not 200, and the last reply is handed back. */
    method GetAntifraudResponse(email: string, promoId: string) returns (response: Response)
      modifies this`sent
      ensures var n := |old(sent)|;
              response == FinalResponse(service(n), service(n + 1)) &&
              sent == old(sent) + (if service(n).statusCode != HTTP_OK
                                   then [Request(email, promoId), Request(email, promoId)]
                                   else [Request(email, promoId)])
    {
      var request := Request(email, promoId);
      response := Post(request);
      if response.statusCode != HTTP_OK {
        response := Post(request);
      }
    }

    /** `antifraud_success(email, promoId)` at time `now`: exactly `Decide`,
        every request it posts carrying this email and promocode. */
    method AntifraudSuccess(email: string, promoId: string, now: Instant) returns (success: bool)
      modifies this`cache, this`sent
      ensures var n := |old(sent)|;
              var d := Decide(old(cache), email, now, service(n), service(n + 1));
              success == d.success && cache == d.cache &&
              |sent| == n + d.posts && sent[..n] == old(sent) &&
              forall i :: n <= i < |sent| ==> sent[i] == Request(email, promoId)
    {
      var info := GetUserCachedInfo(email);
      if info.Some? && !CacheUntilPassed(info.value.cacheUntil, now) {
        return info.value.success;
      }
      var response := GetAntifraudResponse(email, promoId);
      if response.statusCode != HTTP_OK {
        return false;
      }
      success := response.ok;
      if response.cacheUntil.Some? {
        SetUserCachedInfo(email, response.cacheUntil.value, success);
      }
    }
  }
}
